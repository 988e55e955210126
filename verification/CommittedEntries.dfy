/** What becomes of an entry that a committed write stored: the other half of the fence protocol's promise.

    Such an entry stays for as long as its fence is current, unless it is evicted, found expired, or replaced by
    another operation, once the unfenced deletes that were under way when it was stored are done.  Until then one
    of them can take it, as the runs at the end show. */
module CommittedEntries {
  import opened OrderedMap
  import opened Keys
  import opened Epochs
  import opened WriteScheduler
  import opened FencedWrites

  // ---- two more invariants ----

  /** The keys a check found stale have outdated fences. */
  ghost predicate StaleIsOutdated(s: State, i: OpId, g: nat) {
    HasGroup(s, i, g) && StageOf(s, i, g).Cleaning? ==>
      forall k :: k in StageOf(s, i, g).stale ==>
                    k in s.ops[i].captures && s.table.Outdated(k, s.ops[i].captures[k].fence)
  }

  /** What a delete has still to delete is of its own keys. */
  ghost predicate TodoFits(s: State, j: nat) {
    j < |s.invalidations| && s.invalidations[j].Drop? ==>
      forall c :: c in s.invalidations[j].todo ==> c.key in s.invalidations[j].keys
  }

  ghost predicate Tidy(s: State) {
    (forall i, g :: StaleIsOutdated(s, i, g)) && (forall j :: TodoFits(s, j))
  }

  /** An invalidation has yet to delete the cell. */
  predicate Outstanding(v: Invalidation, c: Cell) {
    match v
    case Drop(_, _, todo) => c in todo
    case ClearAll(_, todoLayers) => c.layer in todoLayers
  }

  // ---- fences only get older ----

  lemma TableMoves(s: State, l: Limits, e: Event, k: Key)
    requires s.table.Valid() && Possible(s, l, e)
    ensures NotAfter(s.table.Current(k), After(s, l, e).table.Current(k))
  {
    match e
    case Invalidate(keys, _) => ChangeMoves(s.table, BumpKeys(keys));
    case Clear(_) => ChangeMoves(s.table, Change.Clear);
    case _ =>
  }

  lemma StaysOutdated(s: State, l: Limits, e: Event, c: Capture)
    requires CapturesHold(s) && Possible(s, l, e) && c in s.captured && s.table.Outdated(c.key, c.fence)
    ensures After(s, l, e).table.Outdated(c.key, c.fence)
  {
    assert CaptureIsPast(s, c);
    TableMoves(s, l, e, c.key);
  }

  // ---- the invariants hold in every run ----

  lemma StepKeepsStale(s: State, l: Limits, e: Event, i: OpId, g: nat)
    requires Valid(s) && Possible(s, l, e) && StaleIsOutdated(s, i, g) && i < |s.ops|
    ensures StaleIsOutdated(After(s, l, e), i, g)
  {
    var t := After(s, l, e);
    CapturesStay(s, l, e, i);
    StepMovesGroup(s, l, e, i, g);
    if HasGroup(t, i, g) && StageOf(t, i, g).Cleaning? {
      forall k | k in StageOf(t, i, g).stale
        ensures k in t.ops[i].captures && t.table.Outdated(k, t.ops[i].captures[k].fence)
      {
        assert OpFits(s, i) && GroupFits(s, i, g);
        StaysOutdated(s, l, e, s.ops[i].captures[k]);
      }
    }
  }

  lemma StepKeepsTodo(s: State, l: Limits, e: Event, j: nat)
    requires Possible(s, l, e) && TodoFits(s, j)
    ensures TodoFits(After(s, l, e), j)
  {
  }

  lemma StepKeepsTidy(s: State, l: Limits, e: Event)
    requires Valid(s) && Tidy(s) && Possible(s, l, e)
    ensures Tidy(After(s, l, e))
  {
    var t := After(s, l, e);
    forall i: OpId, g: nat
      ensures StaleIsOutdated(t, i, g)
    {
      assert StaleIsOutdated(s, i, g);
      if i < |s.ops| {
        StepKeepsStale(s, l, e, i, g);
      } else if i < |t.ops| {
        LayoutFits(s, e.write);
      }
    }
    forall j: nat
      ensures TodoFits(t, j)
    {
      assert TodoFits(s, j);
      StepKeepsTodo(s, l, e, j);
    }
  }

  lemma {:induction false} RunKeepsTidy(s: State, l: Limits, events: seq<Event>)
    requires Valid(s) && Tidy(s) && RunFrom(s, l, events).Some?
    ensures Tidy(RunFrom(s, l, events).value)
    decreases |events|
  {
    if events == [] {
    } else {
      var before := events[..|events|-1];
      RunKeepsTidy(s, l, before);
      RunKeepsValid(s, l, before);
      StepKeepsTidy(RunFrom(s, l, before).value, l, events[|events|-1]);
    }
  }

  // ---- a committed entry ----

  /** The entry of the cell was stored by an operation that committed the key, and the operation's fence is still
      current. */
  ghost predicate Stands(s: State, c: Cell) {
    && c in s.cells && s.cells[c].op < |s.ops|
    && var i := s.cells[c].op;
       && Committed(s, i, c.key) && c.key in s.ops[i].captures
       && s.table.Current(c.key) == s.ops[i].captures[c.key].fence
  }

  /** An invalidation from before the fence of the entry is still about to delete the cell. */
  ghost predicate DropIsDue(s: State, c: Cell)
    requires Stands(s, c)
  {
    exists j :: 0 <= j < s.ops[s.cells[c].op].captures[c.key].at && j < |s.invalidations|
                && Outstanding(s.invalidations[j], c)
  }

  /** A reader that found an expired entry in the cell is still about to delete it. */
  predicate Pending(v: Sighting, c: Cell) {
    v.cell == c && !v.done
  }

  predicate SweepIsDue(s: State, c: Cell) {
    exists n :: 0 <= n < |s.sightings| && Pending(s.sightings[n], c)
  }

  /** The entry stands, and no delete that began before it is still under way. */
  ghost predicate Secure(s: State, c: Cell) {
    Stands(s, c) && !DropIsDue(s, c) && !SweepIsDue(s, c)
  }

  /** The entry is evicted, or another operation stores over it. */
  predicate Replaces(s: State, e: Event, c: Cell) {
    e == Evict(c) || (e.SetCell? && e.cell == c && c in s.cells && e.op != s.cells[c].op)
  }

  /** A delete of the cell takes effect. */
  predicate Deletes(s: State, e: Event, c: Cell) {
    match e
    case DropCell(_, d) => d == c
    case DropLayer(_, y) => y == c.layer
    case Sweep(n) => n < |s.sightings| && s.sightings[n].cell == c
    case _ => false
  }

  /** Nobody cleans up an entry with a current fence: a group at work on a key finds only entries from fences no
      later than its own, so if its key is stale, theirs is. */
  lemma CleanedUpIsOutdated(s: State, l: Limits, i: OpId, g: nat, c: Cell)
    requires Valid(s) && Tidy(s) && Possible(s, l, CleanCell(i, g, c))
    ensures c in s.cells ==>
              && s.cells[c].op < |s.ops| && c.key in s.ops[s.cells[c].op].captures
              && s.table.Outdated(c.key, s.ops[s.cells[c].op].captures[c.key].fence)
  {
    assert EntryFits(s, c) && GroupFits(s, i, g) && StaleIsOutdated(s, i, g) && WorksOnOlder(s, i, g, c);
    assert OpFits(s, i);
    assert CaptureIsPast(s, s.ops[i].captures[c.key]);
  }

  /** Only an invalidation from before its fence can be about to delete an entry that stands: one from after would
      have outdated the fence. */
  lemma DropIsEarlier(s: State, j: nat, c: Cell)
    requires Valid(s) && Tidy(s) && Stands(s, c) && j < |s.invalidations| && Outstanding(s.invalidations[j], c)
    ensures DropIsDue(s, c)
  {
    var mine := s.ops[s.cells[c].op].captures[c.key];
    assert OpFits(s, s.cells[c].op) && TodoFits(s, j);
    assert CaptureIsOutdated(s, mine, j);
  }

  /** Nor does its own operation touch it again. */
  lemma NoSecondStore(s: State, l: Limits, g: nat, c: Cell)
    requires Valid(s) && Stands(s, c)
    ensures !Possible(s, l, SetCell(s.cells[c].op, g, c))
  {
  }

  /** The step takes the entry away or replaces it. */
  predicate LosesEntry(s: State, l: Limits, e: Event, c: Cell)
    requires Possible(s, l, e) && c in s.cells
  {
    var t := After(s, l, e);
    c !in t.cells || t.cells[c] != s.cells[c]
  }

  lemma StoreTakesIff(s: State, l: Limits, e: Event, c: Cell)
    requires Valid(s) && Possible(s, l, e) && e.SetCell? && Stands(s, c)
    ensures LosesEntry(s, l, e, c) <==> Replaces(s, e, c)
  {
    NoSecondStore(s, l, e.group, c);
  }

  lemma CleanupSpares(s: State, l: Limits, e: Event, c: Cell)
    requires Valid(s) && Tidy(s) && Possible(s, l, e) && e.CleanCell? && Stands(s, c)
    ensures !LosesEntry(s, l, e, c)
  {
    CleanedUpIsOutdated(s, l, e.op, e.group, e.cell);
  }

  lemma DeleteTakesIff(s: State, l: Limits, e: Event, c: Cell)
    requires Possible(s, l, e) && !e.SetCell? && !e.CleanCell? && c in s.cells
    ensures LosesEntry(s, l, e, c) <==> e == Evict(c) || Deletes(s, e, c)
  {
  }

  /** A step takes away or replaces an entry that stands if and only if it evicts it, is another operation's store
      to its cell, or is one of the unfenced deletes: no cleanup ever does. */
  lemma StandingEntryLostIff(s: State, l: Limits, e: Event, c: Cell)
    requires Valid(s) && Tidy(s) && Possible(s, l, e) && Stands(s, c)
    ensures LosesEntry(s, l, e, c) <==> Replaces(s, e, c) || Deletes(s, e, c)
  {
    if e.SetCell? {
      StoreTakesIff(s, l, e, c);
    } else if e.CleanCell? {
      CleanupSpares(s, l, e, c);
    } else {
      DeleteTakesIff(s, l, e, c);
    }
  }

  /** A possible step, other than an eviction, that leaves the cell empty. */
  predicate Empties(s: State, l: Limits, e: Event, c: Cell) {
    Possible(s, l, e) && !e.Evict? && c !in After(s, l, e).cells
  }

  lemma EmptiesMeansDue(s: State, l: Limits, e: Event, c: Cell)
    requires Valid(s) && Tidy(s) && Stands(s, c) && Empties(s, l, e, c)
    ensures if e.Sweep? then SweepIsDue(s, c) else DropIsDue(s, c)
  {
    StandingEntryLostIff(s, l, e, c);
    match e
    case DropCell(j, _) => DropIsEarlier(s, j, c);
    case DropLayer(j, _) => DropIsEarlier(s, j, c);
    case Sweep(n) => assert Pending(s.sightings[n], c);
  }

  lemma DueMeansEmpties(s: State, l: Limits, c: Cell)
    requires Stands(s, c)
    ensures DropIsDue(s, c) ==> exists e :: Empties(s, l, e, c) && !e.Sweep?
    ensures SweepIsDue(s, c) ==> exists e :: Empties(s, l, e, c) && e.Sweep?
  {
    if DropIsDue(s, c) {
      var j :| 0 <= j < s.ops[s.cells[c].op].captures[c.key].at && j < |s.invalidations|
               && Outstanding(s.invalidations[j], c);
      assert Empties(s, l, if s.invalidations[j].Drop? then DropCell(j, c) else DropLayer(j, c.layer), c);
    }
    if SweepIsDue(s, c) {
      var n :| 0 <= n < |s.sightings| && Pending(s.sightings[n], c);
      assert Empties(s, l, Sweep(n), c);
    }
  }

  /** When a committed entry with a current fence can be taken.  In every valid state: some delete or cleanup can
      empty the cell next if and only if an invalidation from before the fence has yet to delete the cell, and some
      reader can if and only if it found an expired entry there and has yet to delete it.  Nothing else can. */
  lemma TakenIffDue(s: State, l: Limits, c: Cell)
    requires Valid(s) && Tidy(s) && Stands(s, c)
    ensures (exists e :: Empties(s, l, e, c) && !e.Sweep?) <==> DropIsDue(s, c)
    ensures (exists e :: Empties(s, l, e, c) && e.Sweep?) <==> SweepIsDue(s, c)
  {
    DueMeansEmpties(s, l, c);
    forall e | Empties(s, l, e, c)
      ensures if e.Sweep? then SweepIsDue(s, c) else DropIsDue(s, c)
    {
      EmptiesMeansDue(s, l, e, c);
    }
  }

  /** A step takes a secure entry away if and only if it evicts it or is another operation's store to the cell. */
  lemma SecureEntryLostIff(s: State, l: Limits, e: Event, c: Cell)
    requires Valid(s) && Tidy(s) && Possible(s, l, e) && Secure(s, c)
    ensures LosesEntry(s, l, e, c) <==> Replaces(s, e, c)
  {
    StandingEntryLostIff(s, l, e, c);
    if Deletes(s, e, c) {
      assert Empties(s, l, e, c);
      EmptiesMeansDue(s, l, e, c);
    }
  }

  lemma CommittedStays(s: State, l: Limits, e: Event, i: OpId, k: Key)
    requires OpsHold(s) && Possible(s, l, e) && i < |s.ops| && Committed(s, i, k)
    ensures i < |After(s, l, e).ops| && Committed(After(s, l, e), i, k)
  {
    CapturesStay(s, l, e, i);
    forall g | 0 <= g < |s.ops[i].groups|
      ensures var stage := After(s, l, e).ops[i].groups[g].stage;
              stage.Cleaning? && k in stage.active && k !in stage.stale
    {
      StepMovesGroup(s, l, e, i, g);
    }
  }

  lemma OutstandingShrinks(s: State, l: Limits, e: Event, j: nat, c: Cell)
    requires Possible(s, l, e) && j < |s.invalidations|
    ensures j < |After(s, l, e).invalidations|
    ensures Outstanding(After(s, l, e).invalidations[j], c) ==> Outstanding(s.invalidations[j], c)
  {
  }

  lemma NoNewDrop(s: State, l: Limits, e: Event, c: Cell)
    requires Valid(s) && Possible(s, l, e) && Stands(s, c) && !DropIsDue(s, c)
    requires Stands(After(s, l, e), c) && After(s, l, e).cells[c] == s.cells[c]
    ensures !DropIsDue(After(s, l, e), c)
  {
    var t := After(s, l, e);
    var i := s.cells[c].op;
    CapturesStay(s, l, e, i);
    assert OpFits(s, i) && CaptureIsPast(s, s.ops[i].captures[c.key]);
    forall j | 0 <= j < s.ops[i].captures[c.key].at && j < |t.invalidations|
      ensures !Outstanding(t.invalidations[j], c)
    {
      OutstandingShrinks(s, l, e, j, c);
    }
  }

  lemma NoNewSweep(s: State, l: Limits, e: Event, c: Cell)
    requires Possible(s, l, e) && e != Sight(c) && !SweepIsDue(s, c)
    ensures !SweepIsDue(After(s, l, e), c)
  {
    var t := After(s, l, e);
    forall n | 0 <= n < |t.sightings|
      ensures !Pending(t.sightings[n], c)
    {
      assert n < |s.sightings| ==> !Pending(s.sightings[n], c);
    }
  }

  lemma StandsOn(s: State, l: Limits, e: Event, c: Cell)
    requires Valid(s) && Possible(s, l, e) && Stands(s, c)
    requires c in After(s, l, e).cells && After(s, l, e).cells[c] == s.cells[c]
    requires After(s, l, e).table.Current(c.key) == s.table.Current(c.key)
    ensures Stands(After(s, l, e), c)
  {
    CommittedStays(s, l, e, s.cells[c].op, c.key);
    CapturesStay(s, l, e, s.cells[c].op);
  }

  /** An entry that the step leaves, that no reader finds expired in it, and whose fence it leaves current is still
      secure. */
  lemma SecureStays(s: State, l: Limits, e: Event, c: Cell)
    requires Valid(s) && Tidy(s) && Possible(s, l, e) && Secure(s, c) && !Replaces(s, e, c) && e != Sight(c)
    requires After(s, l, e).table.Current(c.key) == s.table.Current(c.key)
    ensures Secure(After(s, l, e), c) && After(s, l, e).cells[c] == s.cells[c]
  {
    SecureEntryLostIff(s, l, e, c);
    StandsOn(s, l, e, c);
    NoNewDrop(s, l, e, c);
    NoNewSweep(s, l, e, c);
  }

  /** Committed entries stay.  Take an entry that a committed write stored, in a state in which its fence is
      current and the unfenced deletes from before are done: no invalidation from before the fence, and no reader
      that found an expired entry in the cell, has yet to delete it.  However the run goes on, as long as the fence
      is current the entry is there, unless it was evicted, another operation stored over it, or it was itself
      found expired: nothing else ever takes it. */
  lemma {:induction false} CommittedEntryStays(l: Limits, history: seq<Event>, later: seq<Event>, c: Cell)
    requires Run(l, history).Some? && RunFrom(Run(l, history).value, l, later).Some?
    requires Secure(Run(l, history).value, c)
    requires var s := Run(l, history).value;
             && RunFrom(s, l, later).value.table.Current(c.key) == s.table.Current(c.key)
             && forall n :: 0 <= n < |later| ==> !Replaces(s, later[n], c) && later[n] != Sight(c)
    ensures var s := Run(l, history).value;
            var t := RunFrom(s, l, later).value;
            Secure(t, c) && t.cells[c] == s.cells[c]
  {
    ReachableIsValid(l, history);
    assert Tidy(START);
    RunKeepsTidy(START, l, history);
    SecureRunStays(Run(l, history).value, l, later, c);
  }

  lemma {:induction false} RunMovesTable(s: State, l: Limits, events: seq<Event>, k: Key)
    requires Valid(s) && RunFrom(s, l, events).Some?
    ensures NotAfter(s.table.Current(k), RunFrom(s, l, events).value.table.Current(k))
    decreases |events|
  {
    if events == [] {
    } else {
      var before := events[..|events|-1];
      RunMovesTable(s, l, before, k);
      RunKeepsValid(s, l, before);
      TableMoves(RunFrom(s, l, before).value, l, events[|events|-1], k);
    }
  }

  lemma {:induction false} SecureRunStays(s: State, l: Limits, events: seq<Event>, c: Cell)
    requires Valid(s) && Tidy(s) && RunFrom(s, l, events).Some? && Secure(s, c)
    requires RunFrom(s, l, events).value.table.Current(c.key) == s.table.Current(c.key)
    requires forall n :: 0 <= n < |events| ==> !Replaces(s, events[n], c) && events[n] != Sight(c)
    ensures var t := RunFrom(s, l, events).value;
            Secure(t, c) && t.cells[c] == s.cells[c]
    decreases |events|
  {
    if events == [] {
    } else {
      var before, e := events[..|events|-1], events[|events|-1];
      var u := RunFrom(s, l, before).value;
      RunKeepsValid(s, l, before);
      RunKeepsTidy(s, l, before);
      RunMovesTable(s, l, before, c.key);
      TableMoves(u, l, e, c.key);
      SecureRunStays(s, l, before, c);
      SecureStays(u, l, e, c);
    }
  }

  // ---- what a reader's delete takes ----

  /** A reader about to delete a cell either found there the very entry it is going to take, and found it expired,
      or the entry was stored after the reader looked. */
  lemma {:induction false} SweptWasSeenBefore(l: Limits, events: seq<Event>, n: nat, c: Cell) returns (m: nat)
    requires Run(l, events).Some?
    requires var s := Run(l, events).value;
             && n < |s.sightings| && Pending(s.sightings[n], c)
             && c in s.cells && s.cells[c] != s.sightings[n].seen
    ensures m < |events| && Run(l, events[..m]).Some?
    ensures var s := Run(l, events).value;
            var u := Run(l, events[..m]).value;
            && events[m] == SetCell(s.cells[c].op, s.cells[c].group, c)
            && n < |u.sightings| && u.sightings[n] == s.sightings[n]
    decreases |events|
  {
    var last := |events| - 1;
    var e := events[last];
    var u := Run(l, events[..last]).value;
    if e.SetCell? && e.cell == c {
      m := last;
    } else {
      EntryWasThere(u, l, e, n, c);
      m := SweptWasSeenBefore(l, events[..last], n, c);
      assert events[..last][..m] == events[..m];
    }
  }

  /** A step other than a store to the cell finds the entry there, and a sighting of another entry too. */
  lemma EntryWasThere(s: State, l: Limits, e: Event, n: nat, c: Cell)
    requires Possible(s, l, e) && !(e.SetCell? && e.cell == c)
    requires var t := After(s, l, e);
             && n < |t.sightings| && Pending(t.sightings[n], c)
             && c in t.cells && t.cells[c] != t.sightings[n].seen
    ensures var t := After(s, l, e);
            && c in s.cells && s.cells[c] == t.cells[c]
            && n < |s.sightings| && s.sightings[n] == t.sightings[n]
  {
  }

  // ---- a write that nothing hinders commits ----

  /** The fence is current, no operation is open on the key, and the limits leave room. */
  ghost predicate Unhindered(s: State, l: Limits, v: Capture) {
    && |s.ops| == |s.sched.slots|
    && v in s.captured && s.table.Current(v.key) == v.fence
    && v.key !in s.sched.writeChains && s.sched.Check(l, {v.key}).None?
  }

  /** A write to one layer. */
  function WriteTo(v: Capture, y: LayerId): Write {
    Fenced(v, {y}, {y})
  }

  /** Its steps, as operation `i`, from its admission to its end. */
  function Attempt(v: Capture, y: LayerId, i: OpId): seq<Event> {
    [Submit(WriteTo(v, y)), Begin(i), SetCell(i, 0, Cell(y, v.key)), Check(i, 0), End(i)]
  }

  /** The states in between. */
  function During(s: State, v: Capture, y: LayerId, phase: Phase, stage: Stage, cells: map<Cell, Entry>): State
    requires |s.ops| == |s.sched.slots|
  {
    var c := Cell(y, v.key);
    s.(sched := s.sched.Admit({v.key}).SetPhase(|s.ops|, phase),
       ops := s.ops + [Op(map[v.key := v], [Group({c}, {c}, stage)])],
       cells := cells)
  }

  ghost predicate Steps(s: State, l: Limits, e: Event, t: State) {
    Possible(s, l, e) && After(s, l, e) == t
  }

  lemma LayoutOfOne(v: Capture, y: LayerId)
    ensures var c := Cell(y, v.key);
            Layout(WriteTo(v, y)) == Op(map[v.key := v], [Group({c}, {c}, NotStarted)])
  {
    assert Cells({y}, {v.key}) == {Cell(y, v.key)};
  }

  lemma SubmitSteps(s: State, l: Limits, w: Write, op: Op)
    requires Admissible(s, w) && Layout(w) == op && op.captures.Keys != {}
    requires s.sched.Check(l, op.captures.Keys).None?
    ensures Steps(s, l, Submit(w), s.(sched := s.sched.Admit(op.captures.Keys), ops := s.ops + [op]))
  {
  }

  lemma AdmittedWaits(s: Sched, keys: set<Key>)
    ensures s.Admit(keys).SetPhase(|s.slots|, Waiting) == s.Admit(keys)
  {
    var t := s.Admit(keys);
    var i := |s.slots|;
    assert t.slots[i := t.slots[i].(phase := Waiting)] == t.slots;
  }

  lemma AdmissionSteps(s: State, l: Limits, v: Capture, y: LayerId)
    requires Unhindered(s, l, v)
    ensures Steps(s, l, Submit(WriteTo(v, y)), During(s, v, y, Waiting, NotStarted, s.cells))
  {
    var op := Layout(WriteTo(v, y));
    LayoutOfOne(v, y);
    assert op.captures.Keys == {v.key};
    SubmitSteps(s, l, WriteTo(v, y), op);
    AdmittedWaits(s.sched, {v.key});
  }

  lemma OneActiveKey(t: Table, v: Capture, groups: seq<Group>)
    requires t.Current(v.key) == v.fence
    ensures FencedWrites.ActiveKeys(t, Op(map[v.key := v], groups)) == {v.key}
  {
  }

  lemma BeginSteps(s: State, l: Limits, v: Capture, y: LayerId)
    requires Unhindered(s, l, v)
    ensures Steps(During(s, v, y, Waiting, NotStarted, s.cells), l, Begin(|s.ops|),
                  During(s, v, y, Running, Writing({v.key}, {Cell(y, v.key)}), s.cells))
  {
    var u := During(s, v, y, Waiting, NotStarted, s.cells);
    var op := u.ops[|s.ops|];
    OneActiveKey(s.table, v, op.groups);
    BegunWrites(s.table, op, Cell(y, v.key));
    assert u.ops[|s.ops| := BegunOp(s.table, op)] == s.ops + [BegunOp(s.table, op)];
    AdmittedStarts(s.sched, v.key);
  }

  lemma BegunWrites(t: Table, op: Op, c: Cell)
    requires FencedWrites.ActiveKeys(t, op) == {c.key} && op.groups == [Group({c}, {c}, NotStarted)]
    ensures BegunOp(t, op) == op.(groups := [Group({c}, {c}, Writing({c.key}, {c}))])
  {
    assert BeginStage(t, op, op.groups[0]) == Writing({c.key}, {c});
    assert BegunOp(t, op).groups == [Group({c}, {c}, Writing({c.key}, {c}))];
  }

  lemma AdmittedStarts(s: Sched, k: Key)
    requires k !in s.writeChains
    ensures var t := s.Admit({k}).SetPhase(|s.slots|, Waiting);
            t.CanStart(|s.slots|) && t.SetPhase(|s.slots|, Running) == s.Admit({k}).SetPhase(|s.slots|, Running)
  {
    assert Tails(s.writeChains, {k}) == map[];
  }

  lemma StageSteps(s: State, v: Capture, y: LayerId, stage: Stage, next: Stage, cells: map<Cell, Entry>)
    requires |s.ops| == |s.sched.slots|
    ensures var u := During(s, v, y, Running, stage, cells);
            && Runs(u, |s.ops|, 0) && StageOf(u, |s.ops|, 0) == stage
            && WithStage(u, |s.ops|, 0, next) == During(s, v, y, Running, next, cells)
  {
    var c := Cell(y, v.key);
    var u := During(s, v, y, Running, stage, cells);
    var i := |s.ops|;
    var g := Group({c}, {c}, next);
    assert u.ops[i].groups[0 := g] == [g];
    assert u.ops[i := u.ops[i].(groups := [g])] == s.ops + [u.ops[i].(groups := [g])];
  }

  lemma StoreSteps(s: State, l: Limits, v: Capture, y: LayerId)
    requires |s.ops| == |s.sched.slots|
    ensures var c := Cell(y, v.key);
            Steps(During(s, v, y, Running, Writing({v.key}, {c}), s.cells), l, SetCell(|s.ops|, 0, c),
                  During(s, v, y, Running, Writing({v.key}, {}), s.cells[c := Entry(|s.ops|, 0)]))
  {
    var c := Cell(y, v.key);
    StageSteps(s, v, y, Writing({v.key}, {c}), Writing({v.key}, {}), s.cells);
    StageSteps(s, v, y, Writing({v.key}, {c}), Writing({v.key}, {}), s.cells[c := Entry(|s.ops|, 0)]);
    assert Done(Writing({v.key}, {c}), c) == Writing({v.key}, {});
  }

  lemma CheckPasses(t: Table, op: Op, g: Group, k: Key)
    requires g.stage == Writing({k}, {}) && FencedWrites.ActiveKeys(t, op) == {k}
    ensures CheckStage(t, op, g) == Cleaning({k}, {}, {})
  {
  }

  lemma CheckMovesOn(s: State, l: Limits, i: OpId, stage: Stage)
    requires Runs(s, i, 0) && StageOf(s, i, 0).Writing? && StageOf(s, i, 0).todo == {}
    requires stage == CheckStage(s.table, s.ops[i], s.ops[i].groups[0])
    ensures Steps(s, l, Check(i, 0), WithStage(s, i, 0, stage))
  {
  }

  lemma CheckSteps(s: State, l: Limits, v: Capture, y: LayerId, cells: map<Cell, Entry>)
    requires |s.ops| == |s.sched.slots| && s.table.Current(v.key) == v.fence
    ensures Steps(During(s, v, y, Running, Writing({v.key}, {}), cells), l, Check(|s.ops|, 0),
                  During(s, v, y, Running, Cleaning({v.key}, {}, {}), cells))
  {
    var u := During(s, v, y, Running, Writing({v.key}, {}), cells);
    var op := u.ops[|s.ops|];
    StageSteps(s, v, y, Writing({v.key}, {}), Cleaning({v.key}, {}, {}), cells);
    OneActiveKey(s.table, v, op.groups);
    CheckPasses(s.table, op, op.groups[0], v.key);
    CheckMovesOn(u, l, |s.ops|, Cleaning({v.key}, {}, {}));
  }

  lemma EndSteps(s: State, l: Limits, v: Capture, y: LayerId, cells: map<Cell, Entry>)
    requires |s.ops| == |s.sched.slots|
    ensures Steps(During(s, v, y, Running, Cleaning({v.key}, {}, {}), cells), l, End(|s.ops|),
                  During(s, v, y, Settled, Cleaning({v.key}, {}, {}), cells))
  {
    var i := |s.ops|;
    var admitted := s.sched.Admit({v.key});
    assert admitted.SetPhase(i, Running).SetPhase(i, Settled) == admitted.SetPhase(i, Settled);
  }

  lemma OneMoreStep(s: State, l: Limits, events: seq<Event>, t: State, e: Event, u: State)
    requires RunFrom(s, l, events) == Some(t) && Steps(t, l, e, u)
    ensures RunFrom(s, l, events + [e]) == Some(u)
  {
    assert (events + [e])[..|events + [e]|-1] == events;
  }

  lemma FiveSteps(s: State, l: Limits, e: seq<Event>, s1: State, s2: State, s3: State, s4: State, s5: State)
    requires |e| == 5 && Steps(s, l, e[0], s1) && Steps(s1, l, e[1], s2) && Steps(s2, l, e[2], s3)
    requires Steps(s3, l, e[3], s4) && Steps(s4, l, e[4], s5)
    ensures RunFrom(s, l, e) == Some(s5)
  {
    assert RunFrom(s, l, []) == Some(s);
    assert e[..1] == [] + [e[0]] && e[..2] == e[..1] + [e[1]] && e[..3] == e[..2] + [e[2]];
    assert e[..4] == e[..3] + [e[3]] && e == e[..4] + [e[4]];
    OneMoreStep(s, l, [], s, e[0], s1);
    OneMoreStep(s, l, e[..1], s1, e[1], s2);
    OneMoreStep(s, l, e[..2], s2, e[2], s3);
    OneMoreStep(s, l, e[..3], s3, e[3], s4);
    OneMoreStep(s, l, e[..4], s4, e[4], s5);
  }

  lemma AttemptEvents(v: Capture, y: LayerId, i: OpId)
    ensures var e := Attempt(v, y, i);
            && |e| == 5 && e[0] == Submit(WriteTo(v, y)) && e[1] == Begin(i) && e[2] == SetCell(i, 0, Cell(y, v.key))
            && e[3] == Check(i, 0) && e[4] == End(i)
  {
  }

  /** The state in which the write leaves the cache. */
  function Written(s: State, v: Capture, y: LayerId): State
    requires |s.ops| == |s.sched.slots|
  {
    During(s, v, y, Settled, Cleaning({v.key}, {}, {}), s.cells[Cell(y, v.key) := Entry(|s.ops|, 0)])
  }

  lemma AttemptRuns(s: State, l: Limits, v: Capture, y: LayerId)
    requires Unhindered(s, l, v)
    ensures RunFrom(s, l, Attempt(v, y, |s.ops|)) == Some(Written(s, v, y))
  {
    var c, i := Cell(y, v.key), |s.ops|;
    var cells := s.cells[c := Entry(i, 0)];
    var s1 := During(s, v, y, Waiting, NotStarted, s.cells);
    var s2 := During(s, v, y, Running, Writing({v.key}, {c}), s.cells);
    var s3 := During(s, v, y, Running, Writing({v.key}, {}), cells);
    var s4 := During(s, v, y, Running, Cleaning({v.key}, {}, {}), cells);
    AttemptEvents(v, y, i);
    assert Steps(s, l, Submit(WriteTo(v, y)), s1) by { AdmissionSteps(s, l, v, y); }
    assert Steps(s1, l, Begin(i), s2) by { BeginSteps(s, l, v, y); }
    assert Steps(s2, l, SetCell(i, 0, c), s3) by { StoreSteps(s, l, v, y); }
    assert Steps(s3, l, Check(i, 0), s4) by { CheckSteps(s, l, v, y, cells); }
    assert Steps(s4, l, End(i), Written(s, v, y)) by { EndSteps(s, l, v, y, cells); }
    FiveSteps(s, l, Attempt(v, y, i), s1, s2, s3, s4, Written(s, v, y));
  }

  /** A write that nothing hinders runs through and commits: its entry is in the cell, with a current fence, and the
      unfenced deletes that were under way before are so still. */
  lemma UnhinderedWriteCommits(s: State, l: Limits, v: Capture, y: LayerId)
    requires Unhindered(s, l, v)
    ensures RunFrom(s, l, Attempt(v, y, |s.ops|)) == Some(Written(s, v, y))
    ensures var c := Cell(y, v.key);
            var t := Written(s, v, y);
            && Stands(t, c) && t.cells == s.cells[c := Entry(|s.ops|, 0)]
            && t.invalidations == s.invalidations && t.sightings == s.sightings
  {
    AttemptRuns(s, l, v, y);
  }

  /** Its entry is secure from the start if and only if no unfenced delete from before is under way. */
  lemma CommittedIsSecureIff(s: State, l: Limits, v: Capture, y: LayerId)
    requires Unhindered(s, l, v)
    ensures var c := Cell(y, v.key);
            && Stands(Written(s, v, y), c)
            && (DropIsDue(Written(s, v, y), c) <==>
                exists j :: 0 <= j < v.at && j < |s.invalidations| && Outstanding(s.invalidations[j], c))
            && (SweepIsDue(Written(s, v, y), c) <==> SweepIsDue(s, c))
  {
    UnhinderedWriteCommits(s, l, v, y);
    WrittenCapture(s, v, y);
  }

  lemma WrittenCapture(s: State, v: Capture, y: LayerId)
    requires |s.ops| == |s.sched.slots|
    ensures var t := Written(s, v, y);
            && |t.ops| == |s.ops| + 1 && t.ops[|s.ops|].captures == map[v.key := v]
            && t.cells[Cell(y, v.key)].op == |s.ops|
  {
  }

  // ---- two runs in which an earlier delete takes the entry of a committed write ----

  const ONE: Limits := Limits(1, 1, 1)

  lemma RunOn(l: Limits, before: seq<Event>, s: State, after: seq<Event>, t: State)
    requires Run(l, before) == Some(s) && RunFrom(s, l, after) == Some(t)
    ensures Run(l, before + after) == Some(t)
  {
    FencedWrites.RunSplits(START, l, before, after);
  }

  lemma RunTwo(s: State, l: Limits, d: Event, t: State, e: Event, u: State)
    requires Steps(s, l, d, t) && Steps(t, l, e, u)
    ensures RunFrom(s, l, [d, e]) == Some(u)
  {
    assert [] + [d] == [d] && [d] + [e] == [d, e];
    OneMoreStep(s, l, [], s, d, t);
    OneMoreStep(s, l, [d], t, e, u);
  }

  /** The fence after a bump. */
  function Bumped(k: Key): Capture {
    Capture(k, INITIAL.Bump([k]).Current(k), 1)
  }

  /** After the bump, whose delete has yet to take effect, and the read of the fence. */
  function AfterBump(k: Key, captured: set<Capture>): State {
    START.(table := INITIAL.Bump([k]), captured := captured, invalidations := [Drop([k], {0}, {Cell(0, k)})])
  }

  lemma BumpRuns(k: Key)
    ensures Run(ONE, [Invalidate([k], {0}), Read(k)]) == Some(AfterBump(k, {Bumped(k)}))
  {
    assert Cells({0}, set j | j in [k]) == {Cell(0, k)};
    RunTwo(START, ONE, Invalidate([k], {0}), AfterBump(k, {}), Read(k), AfterBump(k, {Bumped(k)}));
  }

  /** The bump, and a write with a later fence. */
  function LateDelete(k: Key): seq<Event> {
    [Invalidate([k], {0}), Read(k)] + Attempt(Bumped(k), 0, 0)
  }

  /** Why an entry can only be relied on once earlier deletes are done: in this run the entry of a committed write
      with a current fence is next to be deleted by the bump that came before its fence. */
  lemma EarlierDeleteCanTakeIt(k: Key)
    ensures var c := Cell(0, k);
            && Run(ONE, LateDelete(k)).Some?
            && var s := Run(ONE, LateDelete(k)).value;
               && Stands(s, c) && s.cells[c] == Entry(0, 0)
               && Possible(s, ONE, DropCell(0, c)) && c !in After(s, ONE, DropCell(0, c)).cells
  {
    var s := AfterBump(k, {Bumped(k)});
    BumpRuns(k);
    UnhinderedWriteCommits(s, ONE, Bumped(k), 0);
    RunOn(ONE, [Invalidate([k], {0}), Read(k)], s, Attempt(Bumped(k), 0, 0), Written(s, Bumped(k), 0));
  }

  /** The first fence of a key. */
  function First(k: Key): Capture {
    Capture(k, INITIAL.Current(k), 0)
  }

  function AfterRead(k: Key): State {
    START.(captured := {First(k)})
  }

  /** After a first write, its release, and a reader's look at its entry. */
  function AfterSight(k: Key): State {
    var t := Written(AfterRead(k), First(k), 0);
    t.(sched := Sched([Slot({k}, map[], Released)], map[], map[], 0),
       sightings := [Sighting(Cell(0, k), Entry(0, 0), false)])
  }

  lemma FirstWriteIsReleased(k: Key)
    ensures var sched := IDLE.Admit({k}).SetPhase(0, Settled);
            sched.CanRelease(0) && sched.Release(0) == Sched([Slot({k}, map[], Released)], map[], map[], 0)
  {
    assert Tails(map[], {k}) == map[];
    var sched := IDLE.Admit({k}).SetPhase(0, Settled);
    assert Unpoint(sched.writeChains, {k}, 0) == map[];
    assert Lower(sched.pendingWritesByKey, {k}) == map[];
  }

  lemma SightRuns(k: Key)
    ensures RunFrom(Written(AfterRead(k), First(k), 0), ONE, [Free(0), Sight(Cell(0, k))]) == Some(AfterSight(k))
  {
    var t := Written(AfterRead(k), First(k), 0);
    FirstWriteIsReleased(k);
    RunTwo(t, ONE, Free(0), t.(sched := Sched([Slot({k}, map[], Released)], map[], map[], 0)), Sight(Cell(0, k)),
           AfterSight(k));
  }

  lemma SightedRuns(k: Key)
    ensures Run(ONE, [Read(k)] + Attempt(First(k), 0, 0) + [Free(0), Sight(Cell(0, k))]) == Some(AfterSight(k))
  {
    var v, s := First(k), AfterRead(k);
    var one := [Read(k)] + Attempt(v, 0, 0);
    assert [] + [Read(k)] == [Read(k)];
    OneMoreStep(START, ONE, [], START, Read(k), s);
    UnhinderedWriteCommits(s, ONE, v, 0);
    RunOn(ONE, [Read(k)], s, Attempt(v, 0, 0), Written(s, v, 0));
    SightRuns(k);
    RunOn(ONE, one, Written(s, v, 0), [Free(0), Sight(Cell(0, k))], AfterSight(k));
  }

  /** A write, a reader that finds its entry expired, and a second write. */
  function LateSweep(k: Key): seq<Event> {
    [Read(k)] + Attempt(First(k), 0, 0) + [Free(0), Sight(Cell(0, k))] + Attempt(First(k), 0, 1)
  }

  /** Readers' deletes do the same: in this run the entry of a committed write with a current fence is next to be
      deleted by a reader that found the entry before it expired. */
  lemma EarlierReadCanTakeIt(k: Key)
    ensures var c := Cell(0, k);
            && Run(ONE, LateSweep(k)).Some?
            && var s := Run(ONE, LateSweep(k)).value;
               && Stands(s, c) && s.cells[c] == Entry(1, 0) && s.sightings == [Sighting(c, Entry(0, 0), false)]
               && Possible(s, ONE, Sweep(0)) && c !in After(s, ONE, Sweep(0)).cells
  {
    var v, u := First(k), AfterSight(k);
    SightedRuns(k);
    UnhinderedWriteCommits(u, ONE, v, 0);
    RunOn(ONE, [Read(k)] + Attempt(v, 0, 0) + [Free(0), Sight(Cell(0, k))], u, Attempt(v, 0, 1), Written(u, v, 0));
  }
}
