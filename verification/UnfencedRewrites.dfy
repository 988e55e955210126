/** Sliding TTLs and soft expiry beside the fence protocol (src/internal/CacheStackReader.ts:700-713,
    src/internal/CacheStackInvalidationSupport.ts:71-101). */
module UnfencedRewrites {
  import opened OrderedMap
  import opened Keys
  import opened Epochs
  import opened WriteScheduler
  import opened FencedWrites
  import opened CommittedEntries

  // Both read an entry from a layer and set it again, re-dated, in a later layer call: outside the chains and
  // without a fence.  Such a call can put an entry back that an invalidation has deleted in between, so it is no
  // step of the protocol; this module says when it does.  A reader's look at a cell is a sighting, as before.

  /** The entry seen is set again. */
  function Rewritten(s: State, n: nat): State
    requires n < |s.sightings|
  {
    var v := s.sightings[n];
    s.(cells := s.cells[v.cell := v.seen], sightings := s.sightings[n := v.(done := true)])
  }

  /** What stale-write safety says of an invalidation and a cell: if it has deleted the cell and no operation is open
      on the key, an entry there has a fence from after it. */
  ghost predicate NotStale(s: State, j: nat, c: Cell) {
    j < |s.invalidations| && Covers(s.invalidations[j], c.key) && Dropped(s.invalidations[j], c)
    && c.key !in s.sched.writeChains && c in s.cells ==>
      && s.cells[c].op < |s.ops| && c.key in s.ops[s.cells[c].op].captures
      && j < s.ops[s.cells[c].op].captures[c.key].at
  }

  /** An entry that was seen was stored by an operation with a fence for its key. */
  ghost predicate SightingFits(s: State, n: nat) {
    n < |s.sightings| ==>
      s.sightings[n].seen.op < |s.ops| && s.sightings[n].cell.key in s.ops[s.sightings[n].seen.op].captures
  }

  lemma StepKeepsSighting(s: State, l: Limits, e: Event, n: nat)
    requires Valid(s) && Possible(s, l, e) && SightingFits(s, n)
    ensures SightingFits(After(s, l, e), n)
  {
    if n < |s.sightings| {
      CapturesStay(s, l, e, s.sightings[n].seen.op);
    } else if e.Sight? {
      assert EntryFits(s, e.cell);
    }
  }

  lemma {:induction false} SightingsFit(l: Limits, events: seq<Event>, n: nat)
    requires Run(l, events).Some?
    ensures SightingFits(Run(l, events).value, n)
    decreases |events|
  {
    if events == [] {
    } else {
      var before := events[..|events|-1];
      SightingsFit(l, before, n);
      ReachableIsValid(l, before);
      StepKeepsSighting(Run(l, before).value, l, events[|events|-1], n);
    }
  }

  /** In every state of every run: setting a seen entry again keeps stale-write safety for its cell if and only if no
      invalidation of the key since the entry's fence was read has deleted the cell, or an operation is still open on
      the key; so in particular it does while that fence is current. */
  lemma RewriteIsSafeIff(l: Limits, events: seq<Event>, n: nat)
    requires Run(l, events).Some? && n < |Run(l, events).value.sightings|
    ensures var s := Run(l, events).value;
            var c := s.sightings[n].cell;
            && SightingFits(s, n)
            && var v := s.ops[s.sightings[n].seen.op].captures[c.key];
               && ((forall j :: NotStale(Rewritten(s, n), j, c)) <==>
                   c.key in s.sched.writeChains
                   || forall j: nat :: Precedes(s, v, j) ==> !Dropped(s.invalidations[j], c))
               && (!s.table.Outdated(c.key, v.fence) ==> forall j :: NotStale(Rewritten(s, n), j, c))
  {
    var s := Run(l, events).value;
    var c := s.sightings[n].cell;
    SightingsFit(l, events, n);
    var v := s.ops[s.sightings[n].seen.op].captures[c.key];
    ReachableIsValid(l, events);
    assert OpFits(s, s.sightings[n].seen.op);
    forall j: nat
      ensures NotStale(Rewritten(s, n), j, c) <==>
              (c.key in s.sched.writeChains || !(Precedes(s, v, j) && Dropped(s.invalidations[j], c)))
      ensures Precedes(s, v, j) ==> s.table.Outdated(c.key, v.fence)
    {
      assert CaptureIsOutdated(s, v, j);
    }
  }

  // ---- a run in which it is not ----

  /** A write, a reader that sees its entry, and a delete of the key that takes effect at once. */
  function DeletedSince(k: Key): seq<Event> {
    [Read(k)] + Attempt(First(k), 0, 0) + [Free(0), Sight(Cell(0, k))] + [Invalidate([k], {0}), DropCell(0, Cell(0, k))]
  }

  /** After the delete. */
  function AfterDelete(k: Key): State {
    var s := AfterSight(k);
    s.(table := s.table.Bump([k]), cells := map[], invalidations := [Drop([k], {0}, {})])
  }

  lemma BumpSteps(s: State, k: Key)
    requires s.invalidations == []
    ensures Steps(s, ONE, Invalidate([k], {0}),
                  s.(table := s.table.Bump([k]), invalidations := [Drop([k], {0}, {Cell(0, k)})]))
  {
    assert Cells({0}, set j | j in [k]) == {Cell(0, k)};
  }

  lemma DropSteps(s: State, k: Key)
    requires s.invalidations == [Drop([k], {0}, {Cell(0, k)})] && s.cells.Keys == {Cell(0, k)}
    ensures Steps(s, ONE, DropCell(0, Cell(0, k)), s.(cells := map[], invalidations := [Drop([k], {0}, {})]))
  {
    assert s.cells - {Cell(0, k)} == map[];
    assert {Cell(0, k)} - {Cell(0, k)} == {};
  }

  lemma DeleteRuns(k: Key)
    ensures RunFrom(AfterSight(k), ONE, [Invalidate([k], {0}), DropCell(0, Cell(0, k))]) == Some(AfterDelete(k))
  {
    var s, c := AfterSight(k), Cell(0, k);
    BumpSteps(s, k);
    DropSteps(s.(table := s.table.Bump([k]), invalidations := [Drop([k], {0}, {c})]), k);
    RunTwo(s, ONE, Invalidate([k], {0}), s.(table := s.table.Bump([k]), invalidations := [Drop([k], {0}, {c})]),
           DropCell(0, c), AfterDelete(k));
  }

  /** After this run the delete is done and nothing is queued or running, and setting the seen entry again brings the
      deleted entry back. */
  lemma RewriteCanRevive(k: Key)
    ensures var c := Cell(0, k);
            && Run(ONE, DeletedSince(k)).Some?
            && var s := Run(ONE, DeletedSince(k)).value;
               && s.sightings == [Sighting(c, Entry(0, 0), false)] && c !in s.cells && s.sched.writeChains == map[]
               && Rewritten(s, 0).cells == map[c := Entry(0, 0)] && !NotStale(Rewritten(s, 0), 0, c)
  {
    var s, u := AfterRead(k), AfterSight(k);
    var one := [Read(k)] + Attempt(First(k), 0, 0);
    SightedRuns(k);
    DeleteRuns(k);
    RunOn(ONE, one + [Free(0), Sight(Cell(0, k))], u, [Invalidate([k], {0}), DropCell(0, Cell(0, k))], AfterDelete(k));
  }
}
