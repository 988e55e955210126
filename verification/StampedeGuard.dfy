/** In-process single-flight (src/stampede/StampedeGuard.ts).  Each method is one synchronous piece of the
    guard: the entry of a caller, the settling of a task, the timer of a waiting caller, a caller's exit. */
module StampedeGuard {
  import opened OrderedMap
  import opened Keys

  class Entry {
    const key: Key
    var references: nat
    var settled: bool
    var timedOut: bool

    constructor (key: Key)
      ensures this.key == key && references == 1 && !settled && !timedOut
    {
      this.key, references, settled, timedOut := key, 1, false, false;
    }
  }

  datatype Outcome = Joined(entry: Entry) | Started(entry: Entry) | Rejected

  class Guard {
    const maxInFlight: nat
    var inFlight: map<Key, Entry>
    var activeTasks: nat
    /** Every entry made so far, the callers still inside `execute`, and the timeout hooks called. */
    ghost var entries: set<Entry>
    ghost var callers: multiset<Entry>
    ghost var hooks: seq<Entry>

    /** A registered entry is known under its own key, has not timed out, and still has a task or a caller. */
    ghost predicate Registered(k: Key)
      reads this`inFlight, this`entries, if k in inFlight && inFlight[k] in entries then {inFlight[k]} else {}
    {
      k in inFlight ==>
        var e := inFlight[k];
        e in entries && e.key == k && !e.timedOut && !(e.settled && e.references == 0)
    }

    /** A task that neither settled nor timed out is registered; references count the callers; the timeout
        hook was called for the timed-out entries. */
    ghost predicate Tracked(e: Entry)
      reads this`inFlight, this`entries, this`callers, this`hooks, e
    {
      e in entries ==>
        && (!e.settled && !e.timedOut ==> e.key in inFlight && inFlight[e.key] == e)
        && e.references == callers[e]
        && (e.timedOut <==> e in hooks)
    }

    ghost function Unsettled(): set<Entry>
      reads this`entries, entries`settled
    {
      set e | e in entries && !e.settled
    }

    ghost predicate AllTracked()
      reads this, entries
    {
      && (forall e :: e in entries ==> Tracked(e))
      && (forall e :: e in callers ==> e in entries)
      && (forall e :: e in hooks ==> e in entries)
      && NoDuplicates(hooks)
    }

    /** All but the registration of one key. */
    ghost predicate BookkeepingBut(key: Key)
      reads this, entries
    {
      (forall k :: k != key ==> Registered(k)) && AllTracked()
    }

    ghost predicate Bookkeeping()
      reads this, entries
    {
      (forall k :: Registered(k)) && AllTracked()
    }

    ghost predicate Valid()
      reads this, entries
    {
      Bookkeeping() && activeTasks == |Unsettled()| <= maxInFlight
    }

    constructor (maxInFlight: nat)
      ensures Valid() && entries == {} && hooks == [] && this.maxInFlight == maxInFlight
    {
      this.maxInFlight := maxInFlight;
      inFlight, activeTasks, entries, callers, hooks := map[], 0, {}, multiset{}, [];
    }

    /** The synchronous part of `execute`: join the registered entry, or start a task if there is room. */
    method Execute(key: Key) returns (r: Outcome)
      requires Valid()
      modifies this, entries
      ensures Valid() && hooks == old(hooks)
      ensures r.Joined? <==> key in old(inFlight)
      ensures r.Rejected? <==> key !in old(inFlight) && old(activeTasks) >= maxInFlight
      ensures r.Joined? ==> r.entry == old(inFlight)[key] && inFlight == old(inFlight)
                            && entries == old(entries) && callers == old(callers)[r.entry := old(callers)[r.entry] + 1]
      ensures r.Rejected? ==> inFlight == old(inFlight) && entries == old(entries) && callers == old(callers)
      ensures r.Started? ==> fresh(r.entry) && r.entry.key == key && !r.entry.settled
                             && inFlight == old(inFlight)[key := r.entry]
                             && entries == old(entries) + {r.entry} && callers == old(callers)[r.entry := 1]
      ensures forall e :: e in old(entries) ==> e.settled == old(e.settled) && e.timedOut == old(e.timedOut)
    {
      if key in inFlight {
        assert Registered(key);
        Join(inFlight[key]);
        return Joined(inFlight[key]);
      }
      if activeTasks >= maxInFlight {
        return Rejected;
      }
      var entry := Start(key);
      return Started(entry);
    }

    method Join(existing: Entry)
      requires Valid() && existing in entries && existing.key in inFlight && inFlight[existing.key] == existing
      modifies this`callers, existing`references
      ensures Valid() && callers == old(callers)[existing := old(callers)[existing] + 1]
    {
      assert Registered(existing.key) && Tracked(existing);
      existing.references := existing.references + 1;
      callers := callers[existing := callers[existing] + 1];
      forall k ensures Registered(k) { assert old(Registered(k)); }
      forall e | e in entries ensures Tracked(e) { assert old(Tracked(e)); }
    }

    method Start(key: Key) returns (entry: Entry)
      requires Valid() && key !in inFlight && activeTasks < maxInFlight
      modifies this
      ensures Valid() && hooks == old(hooks)
      ensures fresh(entry) && entry.key == key && !entry.settled
      ensures inFlight == old(inFlight)[key := entry] && entries == old(entries) + {entry}
      ensures callers == old(callers)[entry := 1]
    {
      entry := new Entry(key);
      assert entry !in callers && entry !in hooks;
      activeTasks := activeTasks + 1;
      inFlight := inFlight[key := entry];
      entries := entries + {entry};
      callers := callers[entry := 1];
      assert Unsettled() == old(Unsettled()) + {entry};
      forall k ensures Registered(k) { assert k != key ==> old(Registered(k)); }
      forall e | e in entries ensures Tracked(e) { assert e != entry ==> old(Tracked(e)); }
    }

    /** The task settled: its promise's first reaction. */
    method Settle(e: Entry)
      requires Valid() && e in entries && !e.settled
      modifies this`inFlight, this`activeTasks, e`settled
      ensures Valid() && e.settled && activeTasks == old(activeTasks) - 1
      ensures inFlight == if e.references == 0 && e.key in old(inFlight) && old(inFlight)[e.key] == e
                          then old(inFlight) - {e.key} else old(inFlight)
    {
      assert Tracked(e);
      assert e in Unsettled();
      e.settled := true;
      activeTasks := activeTasks - 1;
      if e.references == 0 && e.key in inFlight && inFlight[e.key] == e {
        inFlight := inFlight - {e.key};
      }
      assert Unsettled() == old(Unsettled()) - {e};
      forall k ensures Registered(k) { assert old(Registered(k)); }
      forall d | d in entries ensures Tracked(d) { assert old(Tracked(d)); }
    }

    /** A caller leaves `execute`, by whatever way. */
    method ReleaseEntry(e: Entry)
      requires Valid() && e in entries && callers[e] > 0
      modifies this`inFlight, this`callers, e`references
      ensures Valid() && callers == old(callers)[e := old(callers)[e] - 1]
      ensures inFlight == if e.references == 0 && e.settled && e.key in old(inFlight) && old(inFlight)[e.key] == e
                          then old(inFlight) - {e.key} else old(inFlight)
    {
      Leave(e);
      if e.key in inFlight && inFlight[e.key] == e && e.references == 0 && e.settled {
        Forget(e);
      } else {
        assert Registered(e.key);
      }
    }

    /** The caller is gone; only the registration of its entry may now be out of date. */
    method Leave(e: Entry)
      requires Valid() && e in entries && callers[e] > 0
      modifies this`callers, e`references
      ensures BookkeepingBut(e.key) && activeTasks == |Unsettled()| <= maxInFlight
      ensures e.references == old(e.references) - 1 && callers == old(callers)[e := old(callers)[e] - 1]
      ensures e.key in inFlight && (inFlight[e.key] != e || e.references > 0 || !e.settled) ==> Registered(e.key)
    {
      assert Tracked(e) && Registered(e.key);
      e.references := e.references - 1;
      callers := callers[e := callers[e] - 1];
      forall k | k != e.key ensures Registered(k) { assert old(Registered(k)); }
      forall d | d in entries ensures Tracked(d) { assert old(Tracked(d)); }
    }

    /** A settled entry that nobody waits for is no longer registered. */
    method Forget(e: Entry)
      requires BookkeepingBut(e.key) && activeTasks == |Unsettled()| <= maxInFlight
      requires e in entries && e.key in inFlight && inFlight[e.key] == e && e.settled
      modifies this`inFlight
      ensures Valid() && inFlight == old(inFlight) - {e.key}
    {
      inFlight := inFlight - {e.key};
      forall k ensures Registered(k) { assert k != e.key ==> old(Registered(k)); }
      forall d | d in entries ensures Tracked(d) { assert old(Tracked(d)); }
    }

    /** Detaches the entry of a key and calls the timeout hook, which bumps the key's epoch. */
    method ReleaseTimedOut(key: Key) returns (ghost hook: bool)
      requires Valid()
      modifies this`inFlight, this`hooks, entries`timedOut
      ensures Valid() && hook == (key in old(inFlight))
      ensures inFlight == old(inFlight) - {key}
      ensures hooks == if hook then old(hooks) + [old(inFlight)[key]] else old(hooks)
      ensures forall e :: e in entries ==> e.timedOut == (old(e.timedOut) || (hook && e == old(inFlight)[key]))
    {
      assert Registered(key);
      if key !in inFlight || inFlight[key].timedOut {
        assert inFlight - {key} == inFlight;
        return false;
      }
      var entry := inFlight[key];
      assert Tracked(entry);
      entry.timedOut := true;
      inFlight := inFlight - {key};
      hooks := hooks + [entry];
      forall k ensures Registered(k) { assert old(Registered(k)); }
      forall e | e in entries
        ensures Tracked(e)
      {
        assert old(Tracked(e));
      }
      return true;
    }

    /** The timer of a caller waiting on `e` fires. */
    method FireTimer(e: Entry) returns (ghost hook: bool)
      requires Valid() && e in entries
      modifies this`inFlight, this`hooks, entries`timedOut
      ensures Valid() && hook == (e.key in old(inFlight) && old(inFlight)[e.key] == e)
      ensures hooks == if hook then old(hooks) + [e] else old(hooks)
      ensures inFlight == if hook then old(inFlight) - {e.key} else old(inFlight)
    {
      hook := false;
      if e.key in inFlight && inFlight[e.key] == e {
        hook := ReleaseTimedOut(e.key);
      }
    }

    // ---- what the guard promises, in every state its methods reach ----

    /** The tasks in flight never exceed the limit, timed-out ones included. */
    lemma TasksWithinLimit(tasks: set<Entry>)
      requires Valid() && forall e :: e in tasks ==> e in entries && !e.settled
      ensures |tasks| <= activeTasks <= maxInFlight
    {
      assert tasks <= Unsettled();
      assert Unsettled() == tasks + (Unsettled() - tasks);
    }

    /** At most one unsettled task per key has not timed out, so a second one exists only after a timeout. */
    lemma OneLiveTask(e: Entry, d: Entry)
      requires Valid() && e in entries && d in entries && e.key == d.key && e != d
      requires !e.settled && !d.settled
      ensures e.timedOut || d.timedOut
    {
      assert Tracked(e) && Tracked(d);
    }

    /** A timed-out entry is never registered again, and its hook was called exactly once. */
    lemma TimedOutIsDetached(e: Entry)
      requires Valid() && e in entries && e.timedOut
      ensures forall k :: k in inFlight ==> inFlight[k] != e
      ensures exists i :: 0 <= i < |hooks| && hooks[i] == e && forall j :: 0 <= j < |hooks| && j != i ==> hooks[j] != e
    {
      forall k | k in inFlight
        ensures inFlight[k] != e
      {
        assert Registered(k);
      }
      assert Tracked(e);
      var i :| 0 <= i < |hooks| && hooks[i] == e;
      assert forall j :: 0 <= j < |hooks| && j != i ==> hooks[j] != e;
    }

    /** Nothing is retained when nothing is going on. */
    lemma EmptyWhenQuiet()
      requires Valid() && (forall e :: e in entries ==> e.settled) && callers == multiset{}
      ensures inFlight == map[] && activeTasks == 0
    {
      forall e | e in entries
        ensures e.references == 0
      {
        assert Tracked(e);
      }
      forall k
        ensures k !in inFlight
      {
        assert Registered(k);
      }
      assert Unsettled() == {};
    }
  }
}
