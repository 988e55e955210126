/** The keyed write scheduler `runSerializedWrites` (src/internal/CacheStackMaintenance.ts). */
module WriteScheduler {
  import opened OrderedMap
  import opened Keys

  // Every admitted operation is a slot, numbered in admission order.  A slot waits for the tails its keys had when
  // it was admitted, runs, settles, and is then released by the `finally` callback of its tail.  That callback is
  // the first reaction registered on the tail, so it runs before any slot waiting for the tail can start: a slot
  // starts only when all it waits for is released.

  type SlotId = nat

  datatype Phase = Waiting | Running | Settled | Released

  /** `waits` gives, for each key that had one at admission, the tail this slot waits for. */
  datatype Slot = Slot(keys: set<Key>, waits: map<Key, SlotId>, phase: Phase)

  datatype Limits = Limits(maxPendingWrites: nat, maxActiveWriteKeys: nat, maxPendingWritesPerKey: nat)

  datatype Refusal = PendingWrites | ActiveKeys | PerKey

  /** An operation without keys runs at once, outside the scheduler. */
  datatype Admission = Unscheduled | Admitted(slot: SlotId) | Refused(why: Refusal)

  datatype Sched = Sched(
    slots: seq<Slot>,
    writeChains: map<Key, SlotId>,
    pendingWritesByKey: map<Key, nat>,
    pendingWriteUnits: nat)
  {
    function Depth(k: Key): nat { At(pendingWritesByKey, k) }

    // ---- the four steps ----

    function Check(l: Limits, keys: set<Key>): Option<Refusal> {
      if pendingWriteUnits + |keys| > l.maxPendingWrites then Some(PendingWrites)
      else if |writeChains| + |keys - writeChains.Keys| > l.maxActiveWriteKeys then Some(ActiveKeys)
      else if exists k :: k in keys && Depth(k) + 1 > l.maxPendingWritesPerKey then Some(PerKey)
      else None
    }

    function Admit(keys: set<Key>): Sched {
      Sched(slots + [Slot(keys, Tails(writeChains, keys), Waiting)],
            Point(writeChains, keys, |slots|),
            Raise(pendingWritesByKey, keys),
            pendingWriteUnits + |keys|)
    }

    predicate CanStart(i: SlotId) {
      && i < |slots| && slots[i].phase == Waiting
      && forall k :: k in slots[i].waits ==> slots[i].waits[k] < |slots| && slots[slots[i].waits[k]].phase == Released
    }

    function SetPhase(i: SlotId, phase: Phase): Sched
      requires i < |slots|
    {
      this.(slots := slots[i := slots[i].(phase := phase)])
    }

    predicate CanSettle(i: SlotId) { i < |slots| && slots[i].phase == Running }

    predicate CanRelease(i: SlotId) { i < |slots| && slots[i].phase == Settled }

    /** The `finally` callback. */
    function Release(i: SlotId): Sched
      requires CanRelease(i)
    {
      var keys := slots[i].keys;
      Sched(slots[i := slots[i].(phase := Released)],
            Unpoint(writeChains, keys, i),
            Lower(pendingWritesByKey, keys),
            Less(pendingWriteUnits, |keys|))
    }

    // ---- what is true in every reachable state ----

    ghost predicate Holds(i: SlotId, k: Key) {
      i < |slots| && k in slots[i].keys
    }

    ghost predicate Open(i: SlotId) {
      i < |slots| && slots[i].phase != Released
    }

    ghost predicate Started(i: SlotId) {
      i < |slots| && slots[i].phase != Waiting
    }

    ghost function Holders(k: Key): set<SlotId> {
      set i | 0 <= i < |slots| && Open(i) && Holds(i, k)
    }

    /** A chain entry is an open slot on its key. */
    ghost predicate ChainIsOpen(k: Key) {
      k in writeChains ==> Holds(writeChains[k], k) && Open(writeChains[k])
    }

    /** A chain entry is the last slot on its key, and every open slot's keys have one. */
    ghost predicate ChainIsLast(i: SlotId, k: Key) {
      Holds(i, k) ==> (k in writeChains ==> i <= writeChains[k]) && (Open(i) ==> k in writeChains)
    }

    /** Waits go to earlier slots on the same key, so the wait-for relation has no cycle. */
    ghost predicate WaitGoesBack(i: SlotId, k: Key) {
      i < |slots| && k in slots[i].waits ==>
        k in slots[i].keys && slots[i].waits[k] < i && Holds(slots[i].waits[k], k)
    }

    /** An earlier slot on the same key is released, or the later one waits for it or for one after it. */
    ghost predicate WaitCovers(a: SlotId, b: SlotId, k: Key) {
      a < b && Holds(a, k) && Holds(b, k) && Open(a) ==> k in slots[b].waits && a <= slots[b].waits[k]
    }

    /** A slot that has started left no open slot before it on any of its keys. */
    ghost predicate InOrder(a: SlotId, b: SlotId, k: Key) {
      a < b && Holds(a, k) && Holds(b, k) && Started(b) ==> !Open(a)
    }

    ghost predicate ChainsAreOpen() { forall k :: ChainIsOpen(k) }

    ghost predicate ChainsAreLast() { forall i, k :: ChainIsLast(i, k) }

    ghost predicate WaitsGoBack() { forall i, k :: WaitGoesBack(i, k) }

    ghost predicate WaitsCover() { forall a, b, k :: WaitCovers(a, b, k) }

    ghost predicate Ordered() { forall a, b, k :: InOrder(a, b, k) }

    ghost predicate Counted() {
      && pendingWritesByKey.Keys == writeChains.Keys
      && (forall k :: k in pendingWritesByKey ==> pendingWritesByKey[k] == |Holders(k)|)
      && pendingWriteUnits == Units(slots)
    }

    ghost predicate Valid() {
      && ChainsAreOpen()
      && ChainsAreLast()
      && WaitsGoBack()
      && WaitsCover()
      && Ordered()
      && Counted()
    }

    ghost predicate Within(l: Limits) {
      && pendingWriteUnits <= l.maxPendingWrites
      && |writeChains| <= l.maxActiveWriteKeys
      && (forall k :: k in pendingWritesByKey ==> pendingWritesByKey[k] <= l.maxPendingWritesPerKey)
    }
  }

  /** Truncated subtraction; the invariants show that it never truncates here. */
  function Less(a: nat, b: nat): nat {
    if a >= b then a - b else 0
  }

  function At(m: map<Key, nat>, k: Key): nat {
    if k in m then m[k] else 0
  }

  // ---- what the bookkeeping loops compute ----

  function Tails(chains: map<Key, SlotId>, keys: set<Key>): map<Key, SlotId> {
    map k | k in keys && k in chains :: chains[k]
  }

  function Point(chains: map<Key, SlotId>, keys: set<Key>, tail: SlotId): map<Key, SlotId> {
    map k | k in chains.Keys + keys :: if k in keys then tail else chains[k]
  }

  function Unpoint(chains: map<Key, SlotId>, keys: set<Key>, tail: SlotId): map<Key, SlotId> {
    map k | k in chains && !(k in keys && chains[k] == tail) :: chains[k]
  }

  function Raise(m: map<Key, nat>, keys: set<Key>): map<Key, nat> {
    map k | k in m.Keys + keys :: if k in keys then At(m, k) + 1 else m[k]
  }

  function Lower(m: map<Key, nat>, keys: set<Key>): map<Key, nat> {
    map k | k in m && !(k in keys && m[k] == 1) :: if k in keys then Less(m[k], 1) else m[k]
  }

  lemma OneMoreKey(chains: map<Key, SlotId>, keys: set<Key>, tail: SlotId, k: Key)
    ensures Point(chains, keys + {k}, tail) == Point(chains, keys, tail)[k := tail]
    ensures Tails(chains, keys + {k}) ==
            if k in chains then Tails(chains, keys)[k := chains[k]] else Tails(chains, keys)
    ensures Unpoint(chains, keys + {k}, tail) ==
            if k in chains && chains[k] == tail then Unpoint(chains, keys, tail) - {k} else Unpoint(chains, keys, tail)
  {
  }

  lemma OneMoreDepth(m: map<Key, nat>, keys: set<Key>, k: Key)
    requires k !in keys
    ensures At(Raise(m, keys), k) == At(m, k) && Raise(m, keys + {k}) == Raise(m, keys)[k := At(m, k) + 1]
    ensures k in m && m[k] >= 1 ==> k in Lower(m, keys) && Lower(m, keys)[k] == m[k]
    ensures k in m && m[k] == 1 ==> Lower(m, keys + {k}) == Lower(m, keys) - {k}
    ensures k in m && m[k] > 1 ==> Lower(m, keys + {k}) == Lower(m, keys)[k := m[k] - 1]
  {
  }

  lemma NoKeys(chains: map<Key, SlotId>, tail: SlotId, m: map<Key, nat>)
    ensures Point(chains, {}, tail) == chains && Unpoint(chains, {}, tail) == chains && Tails(chains, {}) == map[]
    ensures Raise(m, {}) == m && Lower(m, {}) == m
  {
  }

  const IDLE: Sched := Sched([], map[], map[], 0)

  /** The keys of the slots that are not released yet, each slot counting all of its keys. */
  ghost function Units(slots: seq<Slot>): nat {
    if slots == [] then 0
    else Units(slots[..|slots|-1]) + OpenUnits(slots[|slots|-1])
  }

  ghost function OpenUnits(s: Slot): nat {
    if s.phase == Released then 0 else |s.keys|
  }

  lemma {:induction false} UnitsUpdate(slots: seq<Slot>, i: nat, s: Slot)
    requires i < |slots|
    ensures Units(slots[i := s]) == Units(slots) - OpenUnits(slots[i]) + OpenUnits(s)
    decreases |slots|
  {
    var n := |slots| - 1;
    if i == n {
      assert slots[i := s][..n] == slots[..n];
    } else {
      assert slots[i := s][..n] == slots[..n][i := s];
      UnitsUpdate(slots[..n], i, s);
    }
  }

  // ---- the steps keep it ----

  /** The earlier slots are as before, and the new one holds its keys, open and not started. */
  lemma AdmitView(s: Sched, keys: set<Key>, i: SlotId, k: Key)
    ensures i < |s.slots| ==> (s.Admit(keys).Holds(i, k) <==> s.Holds(i, k))
    ensures i < |s.slots| ==> (s.Admit(keys).Open(i) <==> s.Open(i))
    ensures i < |s.slots| ==> (s.Admit(keys).Started(i) <==> s.Started(i))
    ensures i < |s.slots| ==> s.Admit(keys).slots[i] == s.slots[i]
    ensures i == |s.slots| ==> (s.Admit(keys).Holds(i, k) <==> k in keys)
    ensures i == |s.slots| ==> s.Admit(keys).Open(i) && !s.Admit(keys).Started(i)
    ensures i == |s.slots| ==> s.Admit(keys).slots[i].waits == Tails(s.writeChains, keys)
    ensures i > |s.slots| ==> !s.Admit(keys).Holds(i, k)
  {
  }

  lemma AdmitKeepsChains(s: Sched, keys: set<Key>)
    requires s.ChainsAreOpen() && s.ChainsAreLast()
    ensures s.Admit(keys).ChainsAreOpen() && s.Admit(keys).ChainsAreLast()
  {
    var t := s.Admit(keys);
    forall k
      ensures t.ChainIsOpen(k)
    {
      if k in t.writeChains {
        assert s.ChainIsOpen(k);
        AdmitView(s, keys, t.writeChains[k], k);
      }
    }
    forall i, k
      ensures t.ChainIsLast(i, k)
    {
      assert s.ChainIsLast(i, k);
      AdmitView(s, keys, i, k);
    }
  }

  lemma AdmitKeepsWaits(s: Sched, keys: set<Key>)
    requires s.ChainsAreOpen() && s.ChainsAreLast() && s.WaitsGoBack() && s.WaitsCover()
    ensures s.Admit(keys).WaitsGoBack() && s.Admit(keys).WaitsCover()
  {
    var t := s.Admit(keys);
    forall i: SlotId, k
      ensures t.WaitGoesBack(i, k)
    {
      assert s.WaitGoesBack(i, k) && s.ChainIsOpen(k);
      AdmitView(s, keys, i, k);
      if i < |t.slots| && k in t.slots[i].waits {
        AdmitView(s, keys, t.slots[i].waits[k], k);
      }
    }
    forall a, b, k
      ensures t.WaitCovers(a, b, k)
    {
      assert s.WaitCovers(a, b, k) && s.ChainIsLast(a, k);
      AdmitView(s, keys, a, k);
      AdmitView(s, keys, b, k);
    }
  }

  lemma AdmitKeepsOrder(s: Sched, keys: set<Key>)
    requires s.Ordered()
    ensures s.Admit(keys).Ordered()
  {
    var t := s.Admit(keys);
    forall a, b, k
      ensures t.InOrder(a, b, k)
    {
      assert s.InOrder(a, b, k);
      AdmitView(s, keys, a, k);
      AdmitView(s, keys, b, k);
    }
  }

  lemma HoldersAfterAdmit(s: Sched, keys: set<Key>, k: Key)
    ensures s.Admit(keys).Holders(k) == if k in keys then s.Holders(k) + {|s.slots|} else s.Holders(k)
  {
    var t := s.Admit(keys);
    forall i: SlotId
      ensures i in t.Holders(k) <==> i in s.Holders(k) || (i == |s.slots| && k in keys)
    {
      AdmitView(s, keys, i, k);
    }
  }

  /** A key has a chain entry exactly when some open slot holds it. */
  lemma NoHoldersNoChain(s: Sched, k: Key)
    requires s.ChainsAreOpen() && s.ChainsAreLast()
    ensures k in s.writeChains <==> |s.Holders(k)| > 0
  {
    assert s.ChainIsOpen(k);
    if k in s.writeChains {
      assert s.writeChains[k] in s.Holders(k);
    }
    if |s.Holders(k)| > 0 {
      var j :| j in s.Holders(k);
      assert s.ChainIsLast(j, k);
    }
  }

  lemma AdmitCounts(s: Sched, keys: set<Key>, k: Key)
    requires s.ChainsAreOpen() && s.ChainsAreLast() && s.Counted()
    ensures At(s.Admit(keys).pendingWritesByKey, k) == |s.Admit(keys).Holders(k)|
  {
    HoldersAfterAdmit(s, keys, k);
    NoHoldersNoChain(s, k);
  }

  lemma AdmitKeepsCount(s: Sched, keys: set<Key>)
    requires s.ChainsAreOpen() && s.ChainsAreLast() && s.Counted()
    ensures s.Admit(keys).Counted()
  {
    var t := s.Admit(keys);
    assert t.slots[..|t.slots|-1] == s.slots;
    forall k | k in t.pendingWritesByKey
      ensures t.pendingWritesByKey[k] == |t.Holders(k)|
    {
      AdmitCounts(s, keys, k);
    }
  }

  lemma AdmitKeepsValid(s: Sched, keys: set<Key>)
    requires s.Valid()
    ensures s.Admit(keys).Valid()
  {
    AdmitKeepsChains(s, keys);
    AdmitKeepsWaits(s, keys);
    AdmitKeepsOrder(s, keys);
    AdmitKeepsCount(s, keys);
  }

  /** Starting and settling change one phase only. */
  lemma PhaseView(s: Sched, i: SlotId, phase: Phase, j: SlotId, k: Key)
    requires s.CanStart(i) || s.CanSettle(i)
    requires phase != Released
    ensures s.SetPhase(i, phase).Open(j) <==> s.Open(j)
    ensures s.SetPhase(i, phase).Holds(j, k) <==> s.Holds(j, k)
    ensures j != i ==> (s.SetPhase(i, phase).Started(j) <==> s.Started(j))
    ensures j < |s.slots| ==> s.SetPhase(i, phase).slots[j].waits == s.slots[j].waits
  {
  }

  lemma PhaseKeepsCount(s: Sched, i: SlotId, phase: Phase)
    requires s.Counted()
    requires s.CanStart(i) || s.CanSettle(i)
    requires phase != Released
    ensures s.SetPhase(i, phase).Counted()
  {
    var t := s.SetPhase(i, phase);
    UnitsUpdate(s.slots, i, t.slots[i]);
    forall k
      ensures t.Holders(k) == s.Holders(k)
    {
      forall j: SlotId
        ensures j in t.Holders(k) <==> j in s.Holders(k)
      {
        PhaseView(s, i, phase, j, k);
      }
    }
  }

  lemma PhaseKeepsChains(s: Sched, i: SlotId, phase: Phase)
    requires s.ChainsAreOpen() && s.ChainsAreLast() && s.WaitsGoBack() && s.WaitsCover()
    requires s.CanStart(i) || s.CanSettle(i)
    requires phase != Released
    ensures var t := s.SetPhase(i, phase);
            t.ChainsAreOpen() && t.ChainsAreLast() && t.WaitsGoBack() && t.WaitsCover()
  {
    var t := s.SetPhase(i, phase);
    forall k
      ensures t.ChainIsOpen(k)
    {
      assert s.ChainIsOpen(k);
      if k in s.writeChains {
        PhaseView(s, i, phase, s.writeChains[k], k);
      }
    }
    forall j, k
      ensures t.ChainIsLast(j, k) && t.WaitGoesBack(j, k)
    {
      assert s.ChainIsLast(j, k) && s.WaitGoesBack(j, k);
      PhaseView(s, i, phase, j, k);
    }
    forall a, b, k
      ensures t.WaitCovers(a, b, k)
    {
      assert s.WaitCovers(a, b, k);
      PhaseView(s, i, phase, a, k);
      PhaseView(s, i, phase, b, k);
    }
  }

  /** A slot may start only when no earlier slot on any of its keys is open. */
  lemma StartIsAlone(s: Sched, i: SlotId, a: SlotId, k: Key)
    requires s.WaitsGoBack() && s.WaitsCover() && s.Ordered()
    requires s.CanStart(i) && a < i && s.Holds(a, k) && s.Holds(i, k)
    ensures !s.Open(a)
  {
    assert s.WaitCovers(a, i, k);
    if k in s.slots[i].waits {
      var p := s.slots[i].waits[k];
      assert s.WaitGoesBack(i, k) && s.InOrder(a, p, k);
    }
  }

  lemma StartKeepsValid(s: Sched, i: SlotId)
    requires s.Valid() && s.CanStart(i)
    ensures s.SetPhase(i, Running).Valid()
  {
    var t := s.SetPhase(i, Running);
    PhaseKeepsCount(s, i, Running);
    PhaseKeepsChains(s, i, Running);
    forall a, b, k
      ensures t.InOrder(a, b, k)
    {
      assert s.InOrder(a, b, k);
      PhaseView(s, i, Running, a, k);
      PhaseView(s, i, Running, b, k);
      if b == i && a < b && s.Holds(a, k) && s.Holds(b, k) {
        StartIsAlone(s, i, a, k);
      }
    }
  }

  lemma SettleKeepsValid(s: Sched, i: SlotId)
    requires s.Valid() && s.CanSettle(i)
    ensures s.SetPhase(i, Settled).Valid()
  {
    var t := s.SetPhase(i, Settled);
    PhaseKeepsCount(s, i, Settled);
    PhaseKeepsChains(s, i, Settled);
    forall a, b, k
      ensures t.InOrder(a, b, k)
    {
      assert s.InOrder(a, b, k);
      PhaseView(s, i, Settled, a, k);
      PhaseView(s, i, Settled, b, k);
    }
  }

  lemma ReleaseView(s: Sched, i: SlotId, j: SlotId, k: Key)
    requires s.CanRelease(i)
    ensures s.Release(i).Open(j) <==> s.Open(j) && j != i
    ensures s.Release(i).Holds(j, k) <==> s.Holds(j, k)
    ensures s.Release(i).Started(j) <==> s.Started(j)
    ensures j < |s.slots| ==> s.Release(i).slots[j].waits == s.slots[j].waits
  {
  }

  lemma ReleaseKeepsChains(s: Sched, i: SlotId)
    requires s.ChainsAreOpen() && s.ChainsAreLast() && s.Ordered() && s.CanRelease(i)
    ensures s.Release(i).ChainsAreOpen() && s.Release(i).ChainsAreLast()
  {
    var t := s.Release(i);
    forall k
      ensures t.ChainIsOpen(k)
    {
      assert s.ChainIsOpen(k);
      if k in t.writeChains {
        ReleaseView(s, i, t.writeChains[k], k);
      }
    }
    forall j, k
      ensures t.ChainIsLast(j, k)
    {
      assert s.ChainIsLast(j, k) && s.ChainIsOpen(k) && s.InOrder(j, i, k);
      ReleaseView(s, i, j, k);
    }
  }

  lemma ReleaseKeepsOrder(s: Sched, i: SlotId)
    requires s.WaitsGoBack() && s.WaitsCover() && s.Ordered() && s.CanRelease(i)
    ensures s.Release(i).WaitsGoBack() && s.Release(i).WaitsCover() && s.Release(i).Ordered()
  {
    var t := s.Release(i);
    forall j, k
      ensures t.WaitGoesBack(j, k)
    {
      assert s.WaitGoesBack(j, k);
      ReleaseView(s, i, j, k);
    }
    forall a, b, k
      ensures t.WaitCovers(a, b, k) && t.InOrder(a, b, k)
    {
      assert s.WaitCovers(a, b, k) && s.InOrder(a, b, k);
      ReleaseView(s, i, a, k);
      ReleaseView(s, i, b, k);
    }
  }

  lemma HoldersAfterRelease(s: Sched, i: SlotId, k: Key)
    requires s.CanRelease(i)
    ensures s.Release(i).Holders(k) == s.Holders(k) - {i}
    ensures i in s.Holders(k) <==> k in s.slots[i].keys
  {
    var t := s.Release(i);
    forall j: SlotId
      ensures j in t.Holders(k) <==> j in s.Holders(k) && j != i
    {
      ReleaseView(s, i, j, k);
    }
  }

  /** Every key of an open slot is counted. */
  lemma HeldIsCounted(s: Sched, i: SlotId, k: Key)
    requires s.ChainsAreOpen() && s.ChainsAreLast() && s.Counted() && s.Open(i) && s.Holds(i, k)
    ensures k in s.pendingWritesByKey && s.pendingWritesByKey[k] == |s.Holders(k)| >= 1
  {
    assert i in s.Holders(k);
    assert |s.Holders(k)| > 0;
    NoHoldersNoChain(s, k);
  }

  lemma ReleaseKeepsCount(s: Sched, i: SlotId)
    requires s.ChainsAreOpen() && s.ChainsAreLast() && s.Ordered() && s.Counted() && s.CanRelease(i)
    ensures s.Release(i).Counted()
  {
    var t := s.Release(i);
    ReleaseKeepsChains(s, i);
    UnitsUpdate(s.slots, i, t.slots[i]);
    forall k
      ensures k in t.pendingWritesByKey <==> k in t.writeChains
      ensures k in t.pendingWritesByKey ==> t.pendingWritesByKey[k] == |t.Holders(k)|
    {
      HoldersAfterRelease(s, i, k);
      if k in s.slots[i].keys {
        HeldIsCounted(s, i, k);
        NoHoldersNoChain(t, k);
      }
    }
  }

  lemma ReleaseKeepsValid(s: Sched, i: SlotId)
    requires s.Valid() && s.CanRelease(i)
    ensures s.Release(i).Valid()
  {
    ReleaseKeepsChains(s, i);
    ReleaseKeepsCount(s, i);
    ReleaseKeepsOrder(s, i);
  }

  // ---- runs ----

  datatype Step = Admit(keys: set<Key>) | Start(slot: SlotId) | Settle(slot: SlotId) | Release(slot: SlotId)

  predicate Enabled(s: Sched, l: Limits, step: Step) {
    match step
    case Admit(keys) => keys != {} && s.Check(l, keys).None?
    case Start(i) => s.CanStart(i)
    case Settle(i) => s.CanSettle(i)
    case Release(i) => s.CanRelease(i)
  }

  function Next(s: Sched, l: Limits, step: Step): Sched
    requires Enabled(s, l, step)
  {
    match step
    case Admit(keys) => s.Admit(keys)
    case Start(i) => s.SetPhase(i, Running)
    case Settle(i) => s.SetPhase(i, Settled)
    case Release(i) => s.Release(i)
  }

  /** The state after all the steps, if each is enabled when its turn comes. */
  function Execute(s: Sched, l: Limits, steps: seq<Step>): Option<Sched>
    decreases |steps|
  {
    if steps == [] then Some(s)
    else
      var t := Execute(s, l, steps[..|steps|-1]);
      var step := steps[|steps|-1];
      if t.Some? && Enabled(t.value, l, step) then Some(Next(t.value, l, step)) else None
  }

  lemma StepKeepsValid(s: Sched, l: Limits, step: Step)
    requires s.Valid() && Enabled(s, l, step)
    ensures Next(s, l, step).Valid()
  {
    match step
    case Admit(keys) => AdmitKeepsValid(s, keys);
    case Start(i) => StartKeepsValid(s, i);
    case Settle(i) => SettleKeepsValid(s, i);
    case Release(i) => ReleaseKeepsValid(s, i);
  }

  /** Pointing the chains of some keys at a new tail adds the keys that had none. */
  lemma PointSize(chains: map<Key, SlotId>, keys: set<Key>, tail: SlotId)
    ensures |Point(chains, keys, tail)| == |chains| + |keys - chains.Keys|
  {
    var t := Point(chains, keys, tail);
    assert t.Keys == chains.Keys + (keys - chains.Keys);
    assert |t| == |t.Keys| && |chains| == |chains.Keys|;
  }

  lemma RaisedWithin(m: map<Key, nat>, keys: set<Key>, max: nat)
    requires forall k :: k in m ==> m[k] <= max
    ensures (forall k :: k in Raise(m, keys) ==> Raise(m, keys)[k] <= max)
            <==> (forall k :: k in keys ==> At(m, k) + 1 <= max)
  {
    forall k | k in keys
      ensures k in Raise(m, keys) && Raise(m, keys)[k] == At(m, k) + 1
    {
    }
  }

  /** A refused admission names a limit it would exceed and is not a step, so it changes nothing; an
      accepted one stays within all three limits. */
  lemma RefusedOnlyAtALimit(s: Sched, l: Limits, keys: set<Key>)
    requires s.Within(l)
    ensures s.Check(l, keys).None? <==> s.Admit(keys).Within(l)
  {
    PointSize(s.writeChains, keys, |s.slots|);
    RaisedWithin(s.pendingWritesByKey, keys, l.maxPendingWritesPerKey);
  }

  lemma ReleaseStaysWithin(s: Sched, l: Limits, i: SlotId)
    requires s.Within(l) && s.CanRelease(i)
    ensures s.Release(i).Within(l)
  {
    var t := s.Release(i);
    assert t.writeChains.Keys <= s.writeChains.Keys;
    CardinalityOfSubset(t.writeChains.Keys, s.writeChains.Keys);
    assert |t.writeChains| == |t.writeChains.Keys| && |s.writeChains| == |s.writeChains.Keys|;
  }

  /** Admission accounting over every run from the idle scheduler: the counters are exact
      (`Counted` is part of `Valid`) and no limit is ever exceeded. */
  lemma {:induction false} RunIsValid(l: Limits, steps: seq<Step>)
    requires Execute(IDLE, l, steps).Some?
    ensures Execute(IDLE, l, steps).value.Valid()
    ensures Execute(IDLE, l, steps).value.Within(l)
    decreases |steps|
  {
    if steps == [] {
      assert IDLE.Valid();
    } else {
      var before := steps[..|steps|-1];
      RunIsValid(l, before);
      var s := Execute(IDLE, l, before).value;
      var step := steps[|steps|-1];
      StepKeepsValid(s, l, step);
      match step
      case Admit(keys) => RefusedOnlyAtALimit(s, l, keys);
      case Release(i) => ReleaseStaysWithin(s, l, i);
      case _ =>
    }
  }

  // ---- what the scheduler promises ----

  /** Two operations that share a key are never both between their start and their release. */
  lemma MutualExclusion(l: Limits, steps: seq<Step>, a: SlotId, b: SlotId, k: Key)
    requires Execute(IDLE, l, steps).Some?
    requires var s := Execute(IDLE, l, steps).value;
             s.Holds(a, k) && s.Holds(b, k) && s.Started(a) && s.Open(a) && s.Started(b) && s.Open(b)
    ensures a == b
  {
    RunIsValid(l, steps);
    var s := Execute(IDLE, l, steps).value;
    assert s.InOrder(a, b, k) && s.InOrder(b, a, k);
  }

  /** Operations on one key start in admission order, each after the earlier ones are released. */
  lemma AdmissionOrder(l: Limits, steps: seq<Step>, a: SlotId, b: SlotId, k: Key)
    requires Execute(IDLE, l, steps).Some?
    requires var s := Execute(IDLE, l, steps).value;
             a < b && s.Holds(a, k) && s.Holds(b, k) && s.Started(b)
    ensures Execute(IDLE, l, steps).value.slots[a].phase == Released
  {
    RunIsValid(l, steps);
    assert Execute(IDLE, l, steps).value.InOrder(a, b, k);
  }

  ghost predicate WaitsFor(s: Sched, a: SlotId, b: SlotId) {
    a < |s.slots| && exists k :: k in s.slots[a].waits && s.slots[a].waits[k] == b
  }

  /** The wait-for relation is acyclic: along any path of it the slot numbers fall. */
  lemma {:induction false} NoWaitCycle(s: Sched, path: seq<SlotId>)
    requires s.WaitsGoBack()
    requires |path| >= 2 && forall j :: 0 <= j < |path| - 1 ==> WaitsFor(s, path[j], path[j+1])
    ensures path[|path|-1] < path[0]
    decreases |path|
  {
    var n := |path| - 1;
    assert WaitsFor(s, path[n-1], path[n]);
    var k :| k in s.slots[path[n-1]].waits && s.slots[path[n-1]].waits[k] == path[n];
    assert s.WaitGoesBack(path[n-1], k);
    if n > 1 {
      NoWaitCycle(s, path[..n]);
    }
  }

  /** The work left: starts, settlements and releases still to come. */
  ghost function Work(slots: seq<Slot>): nat {
    if slots == [] then 0 else Work(slots[..|slots|-1]) + Left(slots[|slots|-1].phase)
  }

  function Left(p: Phase): nat {
    match p case Waiting => 3 case Running => 2 case Settled => 1 case Released => 0
  }

  lemma {:induction false} WorkUpdate(slots: seq<Slot>, i: nat, s: Slot)
    requires i < |slots|
    ensures Work(slots[i := s]) == Work(slots) - Left(slots[i].phase) + Left(s.phase)
    decreases |slots|
  {
    var n := |slots| - 1;
    if i == n {
      assert slots[i := s][..n] == slots[..n];
    } else {
      assert slots[i := s][..n] == slots[..n][i := s];
      WorkUpdate(slots[..n], i, s);
    }
  }

  /** The step the earliest open slot is ready for. */
  function Advance(s: Sched, i: SlotId): Step
    requires i < |s.slots|
  {
    match s.slots[i].phase
    case Waiting => Start(i)
    case Running => Settle(i)
    case _ => Release(i)
  }

  /** Deadlock freedom: in every reachable state the earliest open slot can take its next step, whatever
      the others do and however key sets overlap, and taking it uses up one unit of work. */
  lemma EarliestOpenSlotAdvances(s: Sched, l: Limits, i: SlotId)
    requires s.WaitsGoBack() && s.Open(i)
    requires forall j :: 0 <= j < i ==> !s.Open(j)
    ensures Enabled(s, l, Advance(s, i))
    ensures Work(Next(s, l, Advance(s, i)).slots) == Work(s.slots) - 1
  {
    forall k | k in s.slots[i].waits
      ensures s.slots[i].waits[k] < |s.slots| && s.slots[s.slots[i].waits[k]].phase == Released
    {
      assert s.WaitGoesBack(i, k);
      assert !s.Open(s.slots[i].waits[k]);
    }
    WorkUpdate(s.slots, i, Next(s, l, Advance(s, i)).slots[i]);
  }

  /** Every step that is not an admission uses up work, so without new admissions every run is finite,
      and by the lemma above it can only end with all slots released. */
  lemma StepsUseUpWork(s: Sched, l: Limits, step: Step)
    requires Enabled(s, l, step) && !step.Admit?
    ensures Work(Next(s, l, step).slots) == Work(s.slots) - 1
  {
    WorkUpdate(s.slots, step.slot, Next(s, l, step).slots[step.slot]);
  }

  lemma {:induction false} ExecuteSplits(s: Sched, l: Limits, before: seq<Step>, after: seq<Step>)
    requires Execute(s, l, before).Some?
    ensures Execute(s, l, before + after) == Execute(Execute(s, l, before).value, l, after)
    decreases |after|
  {
    if after == [] {
      assert before + after == before;
    } else {
      var n := |after| - 1;
      assert (before + after)[..|before + after|-1] == before + after[..n];
      ExecuteSplits(s, l, before, after[..n]);
    }
  }

  /** Finishing the open slots before `b` in order leaves slot `b` where it was and ready. */
  lemma {:induction false} Drain(s: Sched, l: Limits, b: SlotId) returns (steps: seq<Step>, t: Sched)
    requires s.Valid() && b <= |s.slots|
    ensures Execute(s, l, steps) == Some(t) && t.Valid()
    ensures forall j :: 0 <= j < |steps| ==> !steps[j].Admit?
    ensures |t.slots| == |s.slots| && (forall j :: 0 <= j < b ==> !t.Open(j))
    ensures forall j :: b <= j < |s.slots| ==> t.slots[j] == s.slots[j]
    decreases |s.slots| + b, Work(s.slots)
  {
    if j :| 0 <= j < b && s.Open(j) {
      var i := Earliest(s, j);
      EarliestOpenSlotAdvances(s, l, i);
      var step := Advance(s, i);
      StepKeepsValid(s, l, step);
      var rest;
      rest, t := Drain(Next(s, l, step), l, b);
      steps := [step] + rest;
      assert [step][..0] == [];
      assert Execute(s, l, [step][..0]) == Some(s);
      assert Execute(s, l, [step]) == Some(Next(s, l, step));
      ExecuteSplits(s, l, [step], rest);
    } else {
      steps, t := [], s;
    }
  }

  lemma {:induction false} Earliest(s: Sched, j: SlotId) returns (i: SlotId)
    requires s.Open(j)
    ensures i <= j && s.Open(i) && forall p :: 0 <= p < i ==> !s.Open(p)
    decreases j
  {
    if p :| 0 <= p < j && s.Open(p) {
      i := Earliest(s, p);
    } else {
      i := j;
    }
  }

  /** Every admitted operation can start: from any reachable state in which it waits, letting the
      earlier operations finish, successfully or not, leads to a state in which it runs. */
  lemma AdmittedCanStart(l: Limits, history: seq<Step>, b: SlotId) returns (steps: seq<Step>)
    requires Execute(IDLE, l, history).Some?
    requires b < |Execute(IDLE, l, history).value.slots|
    requires Execute(IDLE, l, history).value.slots[b].phase == Waiting
    ensures forall j :: 0 <= j < |steps| ==> !steps[j].Admit?
    ensures Execute(IDLE, l, history + steps).Some?
    ensures var s := Execute(IDLE, l, history + steps).value;
            b < |s.slots| && s.slots[b].phase == Running
  {
    RunIsValid(l, history);
    var s := Execute(IDLE, l, history).value;
    var before, t := Drain(s, l, b);
    EarliestOpenSlotAdvances(t, l, b);
    steps := before + [Start(b)];
    assert steps[..|steps|-1] == before;
    assert Execute(s, l, steps) == Some(Next(t, l, Start(b)));
    ExecuteSplits(IDLE, l, history, steps);
  }

  lemma {:induction false} NoUnitsLeft(slots: seq<Slot>)
    requires forall i :: 0 <= i < |slots| ==> slots[i].phase == Released
    ensures Units(slots) == 0
    decreases |slots|
  {
    if slots == [] {
    } else {
      NoUnitsLeft(slots[..|slots|-1]);
    }
  }

  /** When every admitted operation is released, all counters are empty again. */
  lemma IdleIsEmpty(l: Limits, steps: seq<Step>)
    requires Execute(IDLE, l, steps).Some?
    requires forall i :: 0 <= i < |Execute(IDLE, l, steps).value.slots| ==>
                           Execute(IDLE, l, steps).value.slots[i].phase == Released
    ensures var s := Execute(IDLE, l, steps).value;
            s.writeChains == map[] && s.pendingWritesByKey == map[] && s.pendingWriteUnits == 0
  {
    RunIsValid(l, steps);
    var s := Execute(IDLE, l, steps).value;
    NoUnitsLeft(s.slots);
    forall k
      ensures k !in s.writeChains && k !in s.pendingWritesByKey
    {
      assert s.ChainIsOpen(k);
    }
  }

  // ---- the depths add up to the units ----

  ghost function DepthSum(m: map<Key, nat>): nat {
    if m == map[] then 0
    else
      var k :| k in m;
      m[k] + DepthSum(m - {k})
  }

  lemma {:induction false} DepthSumTakesAny(m: map<Key, nat>, k: Key)
    requires k in m
    ensures DepthSum(m) == m[k] + DepthSum(m - {k})
    decreases |m|
  {
    var j :| j in m && DepthSum(m) == m[j] + DepthSum(m - {j});
    if j != k {
      DepthSumTakesAny(m - {j}, k);
      DepthSumTakesAny(m - {k}, j);
      assert m - {j} - {k} == m - {k} - {j};
    }
  }

  lemma DepthSumUpdate(m: map<Key, nat>, k: Key, v: nat)
    ensures DepthSum(m[k := v]) == DepthSum(m) - At(m, k) + v
  {
    DepthSumTakesAny(m[k := v], k);
    if k in m {
      DepthSumTakesAny(m, k);
      assert m[k := v] - {k} == m - {k};
    } else {
      assert m[k := v] - {k} == m;
    }
  }

  /** Raising the depth of every key in `keys` by one raises the sum by their number. */
  lemma {:induction false} DepthSumRaised(m: map<Key, nat>, keys: set<Key>)
    ensures DepthSum(Raise(m, keys)) == DepthSum(m) + |keys|
    decreases keys
  {
    if k :| k in keys {
      DepthSumRaised(m, keys - {k});
      OneMoreDepth(m, keys - {k}, k);
      assert keys - {k} + {k} == keys;
      DepthSumUpdate(Raise(m, keys - {k}), k, At(m, k) + 1);
    } else {
      NoKeys(map[], 0, m);
    }
  }

  lemma {:induction false} DepthSumLowered(m: map<Key, nat>, keys: set<Key>)
    requires forall k :: k in keys ==> k in m && m[k] >= 1
    ensures DepthSum(m) == DepthSum(Lower(m, keys)) + |keys|
    decreases keys
  {
    if k :| k in keys {
      DepthSumLowered(m, keys - {k});
      OneMoreDepth(m, keys - {k}, k);
      assert keys - {k} + {k} == keys;
      if m[k] == 1 {
        DepthSumTakesAny(Lower(m, keys - {k}), k);
      } else {
        DepthSumUpdate(Lower(m, keys - {k}), k, m[k] - 1);
      }
    } else {
      NoKeys(map[], 0, m);
    }
  }

  /** `pendingWriteUnits` is the sum of `pendingWritesByKey` in every reachable state. */
  lemma {:induction false} UnitsAreDepths(l: Limits, steps: seq<Step>)
    requires Execute(IDLE, l, steps).Some?
    ensures var s := Execute(IDLE, l, steps).value;
            s.pendingWriteUnits == DepthSum(s.pendingWritesByKey)
    decreases |steps|
  {
    if steps == [] {
    } else {
      var before := steps[..|steps|-1];
      UnitsAreDepths(l, before);
      RunIsValid(l, before);
      RunIsValid(l, steps);
      var s := Execute(IDLE, l, before).value;
      match steps[|steps|-1]
      case Admit(keys) => DepthSumRaised(s.pendingWritesByKey, keys);
      case Release(i) => ReleasedDepths(s, i);
      case _ =>
    }
  }

  lemma ReleasedDepths(s: Sched, i: SlotId)
    requires s.Valid() && s.CanRelease(i)
    requires s.pendingWriteUnits == DepthSum(s.pendingWritesByKey)
    ensures s.Release(i).pendingWriteUnits == DepthSum(s.Release(i).pendingWritesByKey)
  {
    forall k | k in s.slots[i].keys
      ensures k in s.pendingWritesByKey && s.pendingWritesByKey[k] >= 1
    {
      HeldIsCounted(s, i, k);
    }
    DepthSumLowered(s.pendingWritesByKey, s.slots[i].keys);
  }

  // ---- the scheduler itself ----

  class Scheduler {
    const limits: Limits
    var writeChains: map<Key, SlotId>
    var pendingWritesByKey: map<Key, nat>
    var pendingWriteUnits: nat
    /** The promises handed out so far. */
    var slots: seq<Slot>

    ghost function State(): Sched
      reads this
    {
      Sched(slots, writeChains, pendingWritesByKey, pendingWriteUnits)
    }

    constructor (l: Limits)
      ensures limits == l && State() == IDLE && State().Valid()
    {
      limits := l;
      writeChains, pendingWritesByKey, pendingWriteUnits, slots := map[], map[], 0, [];
    }

    static method Unique(keys: seq<Key>) returns (unique: seq<Key>)
      ensures NoDuplicates(unique)
      ensures forall k :: k in unique <==> k in keys
    {
      unique := [];
      for i := 0 to |keys|
        invariant NoDuplicates(unique)
        invariant forall k :: k in unique <==> k in keys[..i]
      {
        if keys[i] !in unique {
          unique := unique + [keys[i]];
        }
      }
    }

    method CheckLimits(unique: seq<Key>, ghost keys: set<Key>) returns (refusal: Option<Refusal>)
      requires NoDuplicates(unique) && forall k :: k in unique <==> k in keys
      ensures refusal == State().Check(limits, keys)
    {
      CardinalityOfList(unique, keys);
      if pendingWriteUnits + |unique| > limits.maxPendingWrites {
        return Some(PendingWrites);
      }
      var newActiveKeys := CountNew(unique, keys);
      if |writeChains| + newActiveKeys > limits.maxActiveWriteKeys {
        return Some(ActiveKeys);
      }
      for i := 0 to |unique|
        invariant forall k :: k in unique[..i] ==> State().Depth(k) + 1 <= limits.maxPendingWritesPerKey
      {
        if At(pendingWritesByKey, unique[i]) + 1 > limits.maxPendingWritesPerKey {
          assert unique[i] in keys && State().Depth(unique[i]) + 1 > limits.maxPendingWritesPerKey;
          return Some(PerKey);
        }
      }
      return None;
    }

    method CountNew(unique: seq<Key>, ghost keys: set<Key>) returns (n: nat)
      requires NoDuplicates(unique) && forall k :: k in unique <==> k in keys
      ensures n == |keys - writeChains.Keys|
    {
      n := 0;
      ghost var added := {};
      for i := 0 to |unique|
        invariant forall k :: k in added <==> k in unique[..i] && k !in writeChains
        invariant n == |added|
      {
        assert unique[i] !in unique[..i];
        if unique[i] !in writeChains {
          n := n + 1;
          added := added + {unique[i]};
        }
      }
      assert added == keys - writeChains.Keys;
    }

    /** The synchronous part of `runSerializedWrites`. */
    method Admit(keys: seq<Key>) returns (r: Admission)
      requires State().Valid()
      modifies this
      ensures State().Valid()
      ensures var all := set k | k in keys;
              var refusal := old(State()).Check(limits, all);
              r == (if keys == [] then Unscheduled
                    else if refusal.Some? then Refused(refusal.value)
                    else Admitted(|old(slots)|))
      ensures State() == if r.Admitted? then old(State()).Admit(set k | k in keys) else old(State())
    {
      ghost var before := State();
      ghost var all := set k | k in keys;
      var unique := Unique(keys);
      assert |unique| == 0 <==> keys == [] by {
        if keys != [] { assert keys[0] in unique; }
        if unique != [] { assert unique[0] in keys; }
      }
      if |unique| == 0 {
        return Unscheduled;
      }
      var refusal := CheckLimits(unique, all);
      if refusal.Some? {
        return Refused(refusal.value);
      }
      AdmitKeepsValid(before, all);
      r := Admitted(|slots|);
      Register(unique, all);
    }

    /** The bookkeeping of an accepted admission. */
    method Register(unique: seq<Key>, ghost keys: set<Key>)
      requires NoDuplicates(unique) && forall k :: k in unique <==> k in keys
      modifies this
      ensures State() == old(State()).Admit(keys)
    {
      CardinalityOfList(unique, keys);
      var waits := MoveTails(unique, keys);
      pendingWriteUnits := pendingWriteUnits + |unique|;
      assert (set k | k in unique) == keys;
      slots := slots + [Slot((set k | k in unique), waits, Waiting)];
    }

    /** One pass over the keys: count them, collect the tails they had, put the new tail in place. */
    method MoveTails(unique: seq<Key>, ghost keys: set<Key>) returns (waits: map<Key, SlotId>)
      requires NoDuplicates(unique) && forall k :: k in unique <==> k in keys
      modifies this`writeChains, this`pendingWritesByKey
      ensures waits == Tails(old(writeChains), keys)
      ensures writeChains == Point(old(writeChains), keys, |slots|)
      ensures pendingWritesByKey == Raise(old(pendingWritesByKey), keys)
    {
      ghost var chains, depths := writeChains, pendingWritesByKey;
      waits := map[];
      ghost var seen: set<Key> := {};
      NoKeys(writeChains, |slots|, pendingWritesByKey);
      for i := 0 to |unique|
        invariant forall k :: k in seen <==> k in unique[..i]
        invariant waits == Tails(chains, seen)
        invariant writeChains == Point(chains, seen, |slots|)
        invariant pendingWritesByKey == Raise(depths, seen)
      {
        var key := unique[i];
        assert key !in unique[..i];
        waits := MoveTail(key, waits, chains, depths, seen);
        seen := seen + {key};
      }
      assert seen == keys;
    }

    /** One key of the pass, after those in `seen`. */
    method MoveTail(key: Key, waits: map<Key, SlotId>, ghost chains: map<Key, SlotId>, ghost depths: map<Key, nat>,
                    ghost seen: set<Key>)
        returns (more: map<Key, SlotId>)
      requires key !in seen && waits == Tails(chains, seen)
      requires writeChains == Point(chains, seen, |slots|) && pendingWritesByKey == Raise(depths, seen)
      modifies this`writeChains, this`pendingWritesByKey
      ensures more == Tails(chains, seen + {key})
      ensures writeChains == Point(chains, seen + {key}, |slots|) && pendingWritesByKey == Raise(depths, seen + {key})
    {
      OneMoreKey(chains, seen, |slots|, key);
      OneMoreDepth(depths, seen, key);
      pendingWritesByKey := pendingWritesByKey[key := At(pendingWritesByKey, key) + 1];
      more := if key in writeChains then waits[key := writeChains[key]] else waits;
      writeChains := writeChains[key := |slots|];
    }

    /** All tails the slot waits for are released: its operation runs. */
    method Start(i: SlotId)
      requires State().Valid() && State().CanStart(i)
      modifies this`slots
      ensures State() == old(State()).SetPhase(i, Running) && State().Valid()
    {
      StartKeepsValid(State(), i);
      slots := slots[i := slots[i].(phase := Running)];
    }

    /** The operation resolved or rejected; its tail resolves either way. */
    method Settle(i: SlotId)
      requires State().Valid() && State().CanSettle(i)
      modifies this`slots
      ensures State() == old(State()).SetPhase(i, Settled) && State().Valid()
    {
      SettleKeepsValid(State(), i);
      slots := slots[i := slots[i].(phase := Settled)];
    }

    /** The `finally` callback of slot `i`, whose keys are listed in `unique`. */
    method Release(i: SlotId, unique: seq<Key>)
      requires State().Valid() && State().CanRelease(i)
      requires NoDuplicates(unique) && forall k :: k in unique <==> k in slots[i].keys
      modifies this
      ensures State() == old(State()).Release(i) && State().Valid()
    {
      ghost var before := State();
      ReleaseKeepsValid(before, i);
      CardinalityOfList(unique, slots[i].keys);
      pendingWriteUnits := Less(pendingWriteUnits, |unique|);
      forall k | k in unique
        ensures k in pendingWritesByKey && pendingWritesByKey[k] >= 1
      {
        HeldIsCounted(before, i, k);
      }
      Forget(unique, i);
      assert (set k | k in unique) == slots[i].keys;
      slots := slots[i := slots[i].(phase := Released)];
    }

    method Forget(unique: seq<Key>, i: SlotId)
      requires NoDuplicates(unique)
      requires forall k :: k in unique ==> k in pendingWritesByKey && pendingWritesByKey[k] >= 1
      modifies this`writeChains, this`pendingWritesByKey
      ensures writeChains == Unpoint(old(writeChains), (set k | k in unique), i)
      ensures pendingWritesByKey == Lower(old(pendingWritesByKey), (set k | k in unique))
    {
      ghost var chains, depths := writeChains, pendingWritesByKey;
      ghost var seen: set<Key> := {};
      NoKeys(writeChains, i, pendingWritesByKey);
      for j := 0 to |unique|
        invariant forall k :: k in seen <==> k in unique[..j]
        invariant writeChains == Unpoint(chains, seen, i)
        invariant pendingWritesByKey == Lower(depths, seen)
      {
        var key := unique[j];
        assert key !in unique[..j];
        OneMoreKey(chains, seen, i, key);
        OneMoreDepth(depths, seen, key);
        var depth := (if key in pendingWritesByKey then pendingWritesByKey[key] else 1) - 1;
        if depth == 0 {
          pendingWritesByKey := pendingWritesByKey - {key};
        } else {
          pendingWritesByKey := pendingWritesByKey[key := depth];
        }
        if key in writeChains && writeChains[key] == i {
          writeChains := writeChains - {key};
        }
        seen := seen + {key};
      }
      assert seen == set k | k in unique;
    }
  }
}
