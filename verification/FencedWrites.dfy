/** The fenced-write protocol as a transition system. */
module FencedWrites {
  import opened OrderedMap
  import opened Keys
  import opened Epochs
  import opened WriteScheduler

  // The writers are `runFencedWrite`, `writeAcrossLayers`, `writeBatch`, `backfill` and write-behind operations,
  // against deletes, clears, remote invalidations and reads that delete what they find expired.  `Evict` is a layer
  // dropping an entry of its own accord, to make room or at the end of its TTL.  Code between two awaits is one step.
  // A layer call takes effect in a step of its own, at any time between the call and the resumption of its caller,
  // and calls issued together take effect in any order.  Layers do not reject, and which layers are skipped does not
  // change.

  type LayerId = nat
  type OpId = SlotId

  datatype Cell = Cell(layer: LayerId, key: Key)

  /** A fence read by some caller; `at` is the number of invalidations that had begun by then. */
  datatype Capture = Capture(key: Key, fence: Fence, at: nat)

  /** `Writing`: the layer writes of the keys found current are under way.  `Cleaning`: the check after the
      writes found the keys in `stale` outdated, and the deletes in `todo` are under way. */
  datatype Stage =
    | NotStarted
    | Writing(active: set<Key>, todo: set<Cell>)
    | Cleaning(active: set<Key>, stale: set<Key>, todo: set<Cell>)

  /** Layer writes that share one check afterwards. */
  datatype Group = Group(sets: set<Cell>, cleanup: set<Cell>, stage: Stage)

  /** What an admitted operation runs in its chain slot. */
  datatype Op = Op(captures: map<Key, Capture>, groups: seq<Group>)

  /** The operation, and its group, that stored an entry. */
  datatype Entry = Entry(op: OpId, group: nat)

  datatype Invalidation =
    | Drop(keys: seq<Key>, layers: set<LayerId>, todo: set<Cell>)
    | ClearAll(layers: set<LayerId>, todoLayers: set<LayerId>)

  /** A reader got the entry `seen` from the cell, found it expired, and deletes the cell in a later layer call,
      outside the chains and without a fence; `done` when that call has taken effect. */
  datatype Sighting = Sighting(cell: Cell, seen: Entry, done: bool)

  datatype State = State(
    table: Table,
    sched: Sched,
    ops: seq<Op>,
    cells: map<Cell, Entry>,
    captured: set<Capture>,
    invalidations: seq<Invalidation>,
    sightings: seq<Sighting>)

  const START: State := State(INITIAL, IDLE, [], map[], {}, [], [])

  /** The two shapes of write.  `Fenced` is `runFencedWrite`: one key, one check for all layers, and a cleanup
      that may reach more layers than were written, as a backfill's does.  `Batch` is one `writeBatch` slot:
      one check per layer.  A write-behind write is a further operation with the same captures. */
  datatype Write =
    | Fenced(capture: Capture, writes: set<LayerId>, cleans: set<LayerId>)
    | Batch(captures: map<Key, Capture>, layers: seq<LayerId>)

  function Cells(layers: set<LayerId>, keys: set<Key>): set<Cell> {
    set l, k | l in layers && k in keys :: Cell(l, k)
  }

  function Layout(w: Write): Op {
    match w
    case Fenced(c, writes, cleans) =>
      Op(map[c.key := c], [Group(Cells(writes, {c.key}), Cells(cleans, {c.key}), NotStarted)])
    case Batch(captures, layers) =>
      Op(captures,
         seq(|layers|, g requires 0 <= g < |layers| =>
           Group(Cells({layers[g]}, captures.Keys), Cells({layers[g]}, captures.Keys), NotStarted)))
  }

  predicate Admissible(s: State, w: Write) {
    match w
    case Fenced(c, writes, cleans) => c in s.captured && writes <= cleans
    case Batch(captures, _) => forall k :: k in captures ==> captures[k] in s.captured && captures[k].key == k
  }

  datatype Event =
    | Read(key: Key)
    | Submit(write: Write)
    | Begin(op: OpId)
    | SetCell(op: OpId, group: nat, cell: Cell)
    | Check(op: OpId, group: nat)
    | CleanCell(op: OpId, group: nat, cell: Cell)
    | End(op: OpId)
    | Free(op: OpId)
    | Invalidate(keys: seq<Key>, layers: set<LayerId>)
    | Clear(layers: set<LayerId>)
    | DropCell(invalidation: nat, cell: Cell)
    | DropLayer(invalidation: nat, layer: LayerId)
    | Evict(cell: Cell)
    | Sight(cell: Cell)
    | Sweep(sighting: nat)

  predicate HasGroup(s: State, i: OpId, g: nat) {
    i < |s.ops| && g < |s.ops[i].groups|
  }

  function StageOf(s: State, i: OpId, g: nat): Stage
    requires HasGroup(s, i, g)
  {
    s.ops[i].groups[g].stage
  }

  function ActiveKeys(t: Table, op: Op): set<Key> {
    set k | k in op.captures && !t.Outdated(k, op.captures[k].fence)
  }

  /** The check before the writes, and the writes it lets through. */
  function BeginStage(t: Table, op: Op, g: Group): Stage {
    var active := ActiveKeys(t, op);
    Writing(active, set c | c in g.sets && c.key in active)
  }

  /** The check after the writes, and the deletes it asks for. */
  function CheckStage(t: Table, op: Op, g: Group): Stage
    requires g.stage.Writing?
  {
    var stale := g.stage.active - ActiveKeys(t, op);
    Cleaning(g.stage.active, stale, set c | c in g.cleanup && c.key in stale)
  }

  /** One of the outstanding layer calls has taken effect. */
  function Done(stage: Stage, c: Cell): Stage {
    match stage
    case NotStarted => NotStarted
    case Writing(active, todo) => Writing(active, todo - {c})
    case Cleaning(active, stale, todo) => Cleaning(active, stale, todo - {c})
  }

  predicate Finished(g: Group) {
    g.stage.Cleaning? && g.stage.todo == {}
  }

  function WithStage(s: State, i: OpId, g: nat, stage: Stage): State
    requires HasGroup(s, i, g)
  {
    s.(ops := s.ops[i := s.ops[i].(groups := s.ops[i].groups[g := s.ops[i].groups[g].(stage := stage)])])
  }

  function BegunOp(t: Table, op: Op): Op {
    op.(groups := seq(|op.groups|, g requires 0 <= g < |op.groups| =>
                        op.groups[g].(stage := BeginStage(t, op, op.groups[g]))))
  }

  predicate Runs(s: State, i: OpId, g: nat) {
    HasGroup(s, i, g) && i < |s.sched.slots| && s.sched.slots[i].phase == Running
  }

  predicate Possible(s: State, l: Limits, e: Event) {
    match e
    case Read(_) => true
    case Submit(w) =>
      Admissible(s, w) && Layout(w).captures.Keys != {} && s.sched.Check(l, Layout(w).captures.Keys).None?
    case Begin(i) => i < |s.ops| && s.sched.CanStart(i)
    case SetCell(i, g, c) => Runs(s, i, g) && StageOf(s, i, g).Writing? && c in StageOf(s, i, g).todo
    case Check(i, g) => Runs(s, i, g) && StageOf(s, i, g).Writing? && StageOf(s, i, g).todo == {}
    case CleanCell(i, g, c) => Runs(s, i, g) && StageOf(s, i, g).Cleaning? && c in StageOf(s, i, g).todo
    case End(i) =>
      i < |s.ops| && s.sched.CanSettle(i) && forall g :: 0 <= g < |s.ops[i].groups| ==> Finished(s.ops[i].groups[g])
    case Free(i) => s.sched.CanRelease(i)
    case Invalidate(_, _) => true
    case Clear(_) => true
    case DropCell(j, c) => j < |s.invalidations| && s.invalidations[j].Drop? && c in s.invalidations[j].todo
    case DropLayer(j, y) => j < |s.invalidations| && s.invalidations[j].ClearAll? && y in s.invalidations[j].todoLayers
    case Evict(c) => c in s.cells
    case Sight(c) => c in s.cells
    case Sweep(n) => n < |s.sightings| && !s.sightings[n].done
  }

  function After(s: State, l: Limits, e: Event): State
    requires Possible(s, l, e)
  {
    match e
    case Read(k) => s.(captured := s.captured + {Capture(k, s.table.Current(k), |s.invalidations|)})
    case Submit(w) => s.(sched := s.sched.Admit(Layout(w).captures.Keys), ops := s.ops + [Layout(w)])
    case Begin(i) => s.(sched := s.sched.SetPhase(i, Running), ops := s.ops[i := BegunOp(s.table, s.ops[i])])
    case SetCell(i, g, c) =>
      WithStage(s.(cells := s.cells[c := Entry(i, g)]), i, g, Done(StageOf(s, i, g), c))
    case Check(i, g) => WithStage(s, i, g, CheckStage(s.table, s.ops[i], s.ops[i].groups[g]))
    case CleanCell(i, g, c) =>
      WithStage(s.(cells := s.cells - {c}), i, g, Done(StageOf(s, i, g), c))
    case End(i) => s.(sched := s.sched.SetPhase(i, Settled))
    case Free(i) => s.(sched := s.sched.Release(i))
    case Invalidate(keys, layers) =>
      s.(table := s.table.Bump(keys),
         invalidations := s.invalidations + [Drop(keys, layers, Cells(layers, set k | k in keys))])
    case Clear(layers) =>
      s.(table := s.table.BeginClear(), invalidations := s.invalidations + [ClearAll(layers, layers)])
    case DropCell(j, c) =>
      s.(cells := s.cells - {c},
         invalidations := s.invalidations[j := s.invalidations[j].(todo := s.invalidations[j].todo - {c})])
    case DropLayer(j, y) =>
      s.(cells := map c | c in s.cells && c.layer != y :: s.cells[c],
         invalidations := s.invalidations[j := s.invalidations[j].(todoLayers := s.invalidations[j].todoLayers - {y})])
    case Evict(c) => s.(cells := s.cells - {c})
    case Sight(c) => s.(sightings := s.sightings + [Sighting(c, s.cells[c], false)])
    case Sweep(n) =>
      s.(cells := s.cells - {s.sightings[n].cell}, sightings := s.sightings[n := s.sightings[n].(done := true)])
  }

  /** Nothing holds back the world around the writes: fences can be read, keys invalidated, everything cleared and
      entries evicted or seen at any time. */
  lemma WorldIsFree(s: State, l: Limits, k: Key, keys: seq<Key>, layers: set<LayerId>, c: Cell)
    ensures Possible(s, l, Read(k)) && Possible(s, l, Invalidate(keys, layers)) && Possible(s, l, Event.Clear(layers))
    ensures c in s.cells ==> Possible(s, l, Evict(c)) && Possible(s, l, Sight(c))
    ensures c in s.cells ==> c !in After(s, l, Evict(c)).cells && After(s, l, Sight(c)).cells == s.cells
  {
  }

  function Run(l: Limits, events: seq<Event>): Option<State>
    decreases |events|
  {
    RunFrom(START, l, events)
  }

  function RunFrom(s: State, l: Limits, events: seq<Event>): Option<State>
    decreases |events|
  {
    if events == [] then Some(s)
    else
      var t := RunFrom(s, l, events[..|events|-1]);
      if t.Some? && Possible(t.value, l, events[|events|-1]) then Some(After(t.value, l, events[|events|-1])) else None
  }

  // ---- invalidations ----

  predicate Covers(v: Invalidation, k: Key) {
    v.ClearAll? || k in v.keys
  }

  /** The invalidation has deleted the cell from its layer. */
  predicate Dropped(v: Invalidation, c: Cell) {
    c.layer in v.layers && match v
                           case Drop(keys, _, todo) => c.key in keys && c !in todo
                           case ClearAll(_, todoLayers) => c.layer !in todoLayers
  }

  /** The capture was taken before invalidation `j`, and `j` covers its key. */
  predicate Precedes(s: State, c: Capture, j: nat) {
    c.at <= j < |s.invalidations| && Covers(s.invalidations[j], c.key)
  }

  // ---- the invariants ----

  ghost predicate CaptureIsPast(s: State, c: Capture) {
    c in s.captured ==> NotAfter(c.fence, s.table.Current(c.key)) && c.at <= |s.invalidations|
  }

  ghost predicate CaptureIsOutdated(s: State, c: Capture, j: nat) {
    c in s.captured && Precedes(s, c, j) ==> Before(c.fence, s.table.Current(c.key))
  }

  ghost predicate CapturesAreApart(s: State, c: Capture, d: Capture, j: nat) {
    c in s.captured && d in s.captured && c.key == d.key && Precedes(s, c, j) && j < d.at ==> Before(c.fence, d.fence)
  }

  ghost predicate CapturesHold(s: State) {
    && s.table.Valid()
    && (forall c :: CaptureIsPast(s, c))
    && (forall c, j :: CaptureIsOutdated(s, c, j))
    && (forall c, d, j :: CapturesAreApart(s, c, d, j))
  }

  ghost predicate OpFits(s: State, i: OpId) {
    i < |s.ops| ==>
      && i < |s.sched.slots|
      && s.ops[i].captures.Keys == s.sched.slots[i].keys
      && (forall k :: k in s.ops[i].captures ==> s.ops[i].captures[k] in s.captured && s.ops[i].captures[k].key == k)
  }

  /** The outstanding layer calls of a group are on its own cells, and on keys its checks named. */
  ghost predicate StageFits(op: Op, gr: Group, stage: Stage) {
    match stage
    case NotStarted => true
    case Writing(active, todo) =>
      active <= op.captures.Keys && forall c :: c in todo ==> c in gr.sets && c.key in active
    case Cleaning(active, stale, todo) =>
      stale <= active <= op.captures.Keys && forall c :: c in todo ==> c in gr.cleanup && c.key in stale
  }

  /** How far a group is follows the phase of its slot; its outstanding work is on its own keys. */
  ghost predicate GroupFits(s: State, i: OpId, g: nat) {
    HasGroup(s, i, g) && i < |s.sched.slots| ==>
      var op := s.ops[i];
      var gr := op.groups[g];
      && gr.sets <= gr.cleanup
      && (forall c :: c in gr.cleanup ==> c.key in op.captures)
      && (s.sched.slots[i].phase == Waiting <==> gr.stage.NotStarted?)
      && (s.sched.slots[i].phase in {Settled, Released} ==> Finished(gr))
      && StageFits(op, gr, gr.stage)
  }

  ghost predicate OpsHold(s: State) {
    && s.sched.Valid()
    && |s.ops| == |s.sched.slots|
    && (forall i :: OpFits(s, i))
    && (forall i, g :: GroupFits(s, i, g))
  }

  /** An entry was stored by a group that wrote its key, and if that group found the key stale afterwards,
      the entry's deletion is still to come. */
  ghost predicate EntryFits(s: State, c: Cell) {
    c in s.cells ==>
      var e := s.cells[c];
      && HasGroup(s, e.op, e.group)
      && c in s.ops[e.op].groups[e.group].sets
      && c.key in s.ops[e.op].captures
      && !StageOf(s, e.op, e.group).NotStarted?
      && c.key in StageOf(s, e.op, e.group).active
      && (StageOf(s, e.op, e.group).Cleaning? && c.key in StageOf(s, e.op, e.group).stale ==>
            c in StageOf(s, e.op, e.group).todo)
  }

  /** The heart of stale-write safety: an entry that survived the deletion by an invalidation later than its
      fence belongs to a group that has not made its check yet, or that made it and found the key stale. */
  ghost predicate SurvivorIsCaught(s: State, c: Cell, j: nat) {
    c in s.cells && EntryFits(s, c) && Precedes(s, s.ops[s.cells[c].op].captures[c.key], j)
    && Dropped(s.invalidations[j], c) ==>
      var stage := StageOf(s, s.cells[c].op, s.cells[c].group);
      stage.Writing? || (stage.Cleaning? && c.key in stage.stale)
  }

  /** While a group works on a key, no layer holds an entry for it from a later fence. */
  ghost predicate WorksOnOlder(s: State, i: OpId, g: nat, c: Cell) {
    Runs(s, i, g) && !StageOf(s, i, g).NotStarted? && c.key in StageOf(s, i, g).active && c.key in s.ops[i].captures
    && c in s.cells && EntryFits(s, c) ==>
      NotAfter(s.ops[s.cells[c].op].captures[c.key].fence, s.ops[i].captures[c.key].fence)
  }

  ghost predicate EntriesHold(s: State) {
    && (forall c :: EntryFits(s, c))
    && (forall c, j :: SurvivorIsCaught(s, c, j))
    && (forall i, g, c :: WorksOnOlder(s, i, g, c))
  }

  ghost predicate Valid(s: State) {
    CapturesHold(s) && OpsHold(s) && EntriesHold(s)
  }

  // ---- captures ----

  lemma ReadKeepsCaptures(s: State, l: Limits, k: Key)
    requires CapturesHold(s)
    ensures CapturesHold(After(s, l, Read(k)))
  {
    var t := After(s, l, Read(k));
    forall c
      ensures CaptureIsPast(t, c)
    {
      assert CaptureIsPast(s, c);
    }
    forall c, j
      ensures CaptureIsOutdated(t, c, j)
    {
      assert CaptureIsOutdated(s, c, j);
    }
    forall c, d, j
      ensures CapturesAreApart(t, c, d, j)
    {
      assert CapturesAreApart(s, c, d, j) && CaptureIsOutdated(s, c, j);
    }
  }

  /** A change of the epoch table together with the record of the invalidation that caused it. */
  lemma ChangeKeepsCaptures(s: State, t: State, change: Change, v: Invalidation)
    requires CapturesHold(s)
    requires t.table == Apply(s.table, change) && t.captured == s.captured
    requires t.invalidations == s.invalidations + [v]
    requires forall k :: Covers(v, k) ==> Invalidates(change, k)
    ensures CapturesHold(t)
  {
    ChangeMoves(s.table, change);
    forall c
      ensures CaptureIsPast(t, c)
    {
      assert CaptureIsPast(s, c);
      assert NotAfter(s.table.Current(c.key), t.table.Current(c.key));
    }
    forall c, j
      ensures CaptureIsOutdated(t, c, j)
    {
      assert CaptureIsPast(s, c) && CaptureIsOutdated(s, c, j);
      assert NotAfter(s.table.Current(c.key), t.table.Current(c.key));
      assert Covers(v, c.key) ==> Before(s.table.Current(c.key), t.table.Current(c.key));
    }
    forall c, d, j
      ensures CapturesAreApart(t, c, d, j)
    {
      assert CapturesAreApart(s, c, d, j) && CaptureIsPast(s, d);
    }
  }

  /** Nothing but the list of outstanding deletions changes. */
  lemma FrameKeepsCaptures(s: State, t: State)
    requires CapturesHold(s)
    requires t.table == s.table && t.captured == s.captured && |t.invalidations| == |s.invalidations|
    requires forall j, k :: 0 <= j < |s.invalidations| ==>
                              (Covers(t.invalidations[j], k) <==> Covers(s.invalidations[j], k))
    ensures CapturesHold(t)
  {
    forall c
      ensures CaptureIsPast(t, c)
    {
      assert CaptureIsPast(s, c);
    }
    forall c, j
      ensures CaptureIsOutdated(t, c, j)
    {
      assert CaptureIsOutdated(s, c, j);
    }
    forall c, d, j
      ensures CapturesAreApart(t, c, d, j)
    {
      assert CapturesAreApart(s, c, d, j);
    }
  }

  lemma StepKeepsCaptures(s: State, l: Limits, e: Event)
    requires CapturesHold(s) && Possible(s, l, e)
    ensures CapturesHold(After(s, l, e))
  {
    var t := After(s, l, e);
    match e
    case Read(k) => ReadKeepsCaptures(s, l, k);
    case Invalidate(keys, layers) =>
      ChangeKeepsCaptures(s, t, BumpKeys(keys), Drop(keys, layers, Cells(layers, set k | k in keys)));
    case Clear(layers) => ChangeKeepsCaptures(s, t, Change.Clear, ClearAll(layers, layers));
    case _ => FrameKeepsCaptures(s, t);
  }

  // ---- operations ----

  ghost predicate NewGroupFits(op: Op, gr: Group) {
    gr.sets <= gr.cleanup && gr.stage == NotStarted && forall c :: c in gr.cleanup ==> c.key in op.captures
  }

  lemma LayoutFits(s: State, w: Write)
    requires Admissible(s, w)
    ensures forall k :: k in Layout(w).captures ==>
                  Layout(w).captures[k] in s.captured && Layout(w).captures[k].key == k
    ensures forall g :: 0 <= g < |Layout(w).groups| ==> NewGroupFits(Layout(w), Layout(w).groups[g])
  {
  }

  lemma SubmitKeepsOps(s: State, l: Limits, w: Write)
    requires OpsHold(s) && Possible(s, l, Submit(w))
    ensures OpsHold(After(s, l, Submit(w)))
  {
    var sched := s.sched.Admit(Layout(w).captures.Keys);
    AdmitKeepsValid(s.sched, Layout(w).captures.Keys);
    LayoutFits(s, w);
    WaitingKeepsOps(s, After(s, l, Submit(w)), Layout(w), sched);
  }

  /** A new operation at the end, waiting, leaves the earlier ones as they are. */
  lemma WaitingKeepsOps(s: State, t: State, op: Op, sched: Sched)
    requires OpsHold(s) && sched.Valid() && |sched.slots| == |s.ops| + 1
    requires sched.slots[..|s.ops|] == s.sched.slots
    requires sched.slots[|s.ops|].phase == Waiting && sched.slots[|s.ops|].keys == op.captures.Keys
    requires forall k :: k in op.captures ==> op.captures[k] in s.captured && op.captures[k].key == k
    requires forall g :: 0 <= g < |op.groups| ==> NewGroupFits(op, op.groups[g])
    requires t == s.(sched := sched, ops := s.ops + [op])
    ensures OpsHold(t)
  {
    forall i: OpId
      ensures OpFits(t, i)
    {
      assert OpFits(s, i);
      assert i < |s.ops| ==> sched.slots[i] == sched.slots[..|s.ops|][i];
    }
    forall i: OpId, g: nat
      ensures GroupFits(t, i, g)
    {
      assert GroupFits(s, i, g);
      assert i < |s.ops| ==> sched.slots[i] == sched.slots[..|s.ops|][i];
    }
  }

  lemma BeginKeepsOps(s: State, l: Limits, b: OpId)
    requires OpsHold(s) && Possible(s, l, Begin(b))
    ensures OpsHold(After(s, l, Begin(b)))
  {
    var t := After(s, l, Begin(b));
    StartKeepsValid(s.sched, b);
    forall i
      ensures OpFits(t, i)
    {
      assert OpFits(s, i);
    }
    forall i, g
      ensures GroupFits(t, i, g)
    {
      assert GroupFits(s, i, g);
    }
  }

  /** A running group moves on; what else the step changes is not part of the operations. */
  lemma StageKeepsOps(s: State, u: State, i: OpId, g: nat, stage: Stage)
    requires OpsHold(s) && Runs(s, i, g)
    requires u.ops == s.ops && u.sched == s.sched && u.captured == s.captured
    requires !stage.NotStarted? && StageFits(s.ops[i], s.ops[i].groups[g], stage)
    ensures OpsHold(WithStage(u, i, g, stage))
  {
    var t := WithStage(u, i, g, stage);
    forall j
      ensures OpFits(t, j)
    {
      assert OpFits(s, j);
    }
    forall j, h
      ensures GroupFits(t, j, h)
    {
      assert GroupFits(s, j, h);
    }
  }

  /** Only the phase of a slot changes, to one its groups allow. */
  lemma SlotKeepsOps(s: State, t: State)
    requires OpsHold(s)
    requires t.ops == s.ops && t.captured == s.captured
    requires t.sched.Valid() && |t.sched.slots| == |s.sched.slots|
    requires forall i :: 0 <= i < |s.ops| ==>
                           && t.sched.slots[i].keys == s.sched.slots[i].keys
                           && (t.sched.slots[i].phase == Waiting <==> s.sched.slots[i].phase == Waiting)
                           && (t.sched.slots[i].phase in {Settled, Released} ==>
                                 forall g :: 0 <= g < |s.ops[i].groups| ==> Finished(s.ops[i].groups[g]))
    ensures OpsHold(t)
  {
    forall i
      ensures OpFits(t, i)
    {
      assert OpFits(s, i);
    }
    forall i, g
      ensures GroupFits(t, i, g)
    {
      assert GroupFits(s, i, g);
    }
  }

  lemma EndKeepsOps(s: State, l: Limits, e: OpId)
    requires OpsHold(s) && Possible(s, l, End(e))
    ensures OpsHold(After(s, l, End(e)))
  {
    SettleKeepsValid(s.sched, e);
    forall i | 0 <= i < |s.ops| && s.sched.slots[i].phase in {Settled, Released}
      ensures forall g :: 0 <= g < |s.ops[i].groups| ==> Finished(s.ops[i].groups[g])
    {
      forall g | 0 <= g < |s.ops[i].groups|
        ensures Finished(s.ops[i].groups[g])
      {
        assert GroupFits(s, i, g);
      }
    }
    SlotKeepsOps(s, After(s, l, End(e)));
  }

  lemma FreeKeepsOps(s: State, l: Limits, e: OpId)
    requires OpsHold(s) && Possible(s, l, Free(e))
    ensures OpsHold(After(s, l, Free(e)))
  {
    ReleaseKeepsValid(s.sched, e);
    forall i | 0 <= i < |s.ops| && s.sched.slots[i].phase in {Settled, Released}
      ensures forall g :: 0 <= g < |s.ops[i].groups| ==> Finished(s.ops[i].groups[g])
    {
      forall g | 0 <= g < |s.ops[i].groups|
        ensures Finished(s.ops[i].groups[g])
      {
        assert GroupFits(s, i, g);
      }
    }
    SlotKeepsOps(s, After(s, l, Free(e)));
  }

  lemma FrameKeepsOps(s: State, t: State)
    requires OpsHold(s)
    requires t.ops == s.ops && t.sched == s.sched && s.captured <= t.captured
    ensures OpsHold(t)
  {
    forall i
      ensures OpFits(t, i)
    {
      assert OpFits(s, i);
    }
    forall i, g
      ensures GroupFits(t, i, g)
    {
      assert GroupFits(s, i, g);
    }
  }

  lemma StepKeepsOps(s: State, l: Limits, e: Event)
    requires OpsHold(s) && Possible(s, l, e)
    ensures OpsHold(After(s, l, e))
  {
    match e
    case Submit(w) => SubmitKeepsOps(s, l, w);
    case Begin(i) => BeginKeepsOps(s, l, i);
    case SetCell(i, g, c) =>
      assert GroupFits(s, i, g);
      StageKeepsOps(s, s.(cells := s.cells[c := Entry(i, g)]), i, g, Done(StageOf(s, i, g), c));
    case Check(i, g) =>
      assert GroupFits(s, i, g);
      StageKeepsOps(s, s, i, g, CheckStage(s.table, s.ops[i], s.ops[i].groups[g]));
    case CleanCell(i, g, c) =>
      assert GroupFits(s, i, g);
      StageKeepsOps(s, s.(cells := s.cells - {c}), i, g, Done(StageOf(s, i, g), c));
    case End(i) => EndKeepsOps(s, l, i);
    case Free(i) => FreeKeepsOps(s, l, i);
    case _ => FrameKeepsOps(s, After(s, l, e));
  }

  // ---- entries ----

  /** What every step that stores nothing and moves no group has in common. */
  ghost predicate Calmer(s: State, t: State) {
    && |s.ops| <= |t.ops| && (forall i :: 0 <= i < |s.ops| ==> t.ops[i] == s.ops[i])
    && (forall c :: c in t.cells ==> c in s.cells && t.cells[c] == s.cells[c])
    && (forall i: OpId, g: nat :: Runs(t, i, g) ==> i < |s.ops| && Runs(s, i, g))
    && (forall c: Cell, v: Capture, j: nat ::
          c in t.cells && c.key == v.key && Precedes(t, v, j) && Dropped(t.invalidations[j], c) ==>
                            Precedes(s, v, j) && Dropped(s.invalidations[j], c))
  }

  lemma CalmerKeepsEntries(s: State, t: State)
    requires OpsHold(s) && EntriesHold(s) && Calmer(s, t)
    ensures EntriesHold(t)
  {
    forall c
      ensures EntryFits(t, c)
    {
      assert EntryFits(s, c);
    }
    forall c, j
      ensures SurvivorIsCaught(t, c, j)
    {
      assert EntryFits(s, c) && SurvivorIsCaught(s, c, j);
      if c in t.cells {
        assert OpFits(s, s.cells[c].op);
      }
    }
    forall i: OpId, g: nat, c
      ensures WorksOnOlder(t, i, g, c)
    {
      assert EntryFits(s, c) && WorksOnOlder(s, i, g, c);
    }
  }

  lemma SubmitIsCalmer(s: State, l: Limits, w: Write)
    requires OpsHold(s) && Possible(s, l, Submit(w))
    ensures Calmer(s, After(s, l, Submit(w)))
  {
    WaitingIsCalmer(s, After(s, l, Submit(w)), Layout(w), s.sched.Admit(Layout(w).captures.Keys));
  }

  lemma WaitingIsCalmer(s: State, t: State, op: Op, sched: Sched)
    requires |s.ops| == |s.sched.slots| && |sched.slots| == |s.ops| + 1
    requires sched.slots[..|s.ops|] == s.sched.slots && sched.slots[|s.ops|].phase == Waiting
    requires t == s.(sched := sched, ops := s.ops + [op])
    ensures Calmer(s, t)
  {
    forall i: OpId, g: nat | Runs(t, i, g)
      ensures i < |s.ops| && Runs(s, i, g)
    {
      assert i < |s.ops| ==> sched.slots[..|s.ops|][i] == sched.slots[i];
    }
  }

  lemma DropIsCalmer(s: State, l: Limits, e: Event)
    requires Possible(s, l, e) && (e.DropCell? || e.DropLayer? || e.Evict? || e.Sweep?)
    ensures Calmer(s, After(s, l, e))
  {
  }

  lemma InvalidateIsCalmer(s: State, l: Limits, e: Event)
    requires e.Invalidate? || e.Clear?
    ensures Calmer(s, After(s, l, e))
  {
    var t := After(s, l, e);
    var n := |s.invalidations|;
    forall c: Cell | e.Invalidate? && c.key in e.keys && c.layer in e.layers
      ensures c in t.invalidations[n].todo
    {
    }
  }

  lemma SlotIsCalmer(s: State, l: Limits, e: Event)
    requires OpsHold(s) && Possible(s, l, e) && (e.End? || e.Free? || e.Read? || e.Sight?)
    ensures Calmer(s, After(s, l, e))
  {
  }

  /** A write starts only when its fence is current, so it finds no entry from a later fence. */
  lemma BeginKeepsEntries(s: State, l: Limits, b: OpId)
    requires CapturesHold(s) && OpsHold(s) && EntriesHold(s) && Possible(s, l, Begin(b))
    ensures EntriesHold(After(s, l, Begin(b)))
  {
    var t := After(s, l, Begin(b));
    forall c
      ensures EntryFits(t, c)
    {
      assert EntryFits(s, c);
      if c in s.cells {
        assert GroupFits(s, s.cells[c].op, s.cells[c].group);
      }
    }
    forall c, j
      ensures SurvivorIsCaught(t, c, j)
    {
      assert EntryFits(s, c) && SurvivorIsCaught(s, c, j);
      if c in s.cells {
        assert GroupFits(s, s.cells[c].op, s.cells[c].group);
      }
    }
    forall i: OpId, g: nat, c
      ensures WorksOnOlder(t, i, g, c)
    {
      assert EntryFits(s, c) && WorksOnOlder(s, i, g, c);
      if c in s.cells && c.key in s.ops[b].captures {
        assert OpFits(s, s.cells[c].op) && OpFits(s, b);
        assert CaptureIsPast(s, s.ops[s.cells[c].op].captures[c.key]);
      }
    }
  }

  /** Two groups at work on one key belong to one operation. */
  lemma OneWorker(s: State, a: OpId, b: OpId, k: Key)
    requires OpsHold(s) && a < |s.ops| && b < |s.ops|
    requires s.sched.slots[a].phase == Running && s.sched.slots[b].phase == Running
    requires k in s.ops[a].captures && k in s.ops[b].captures
    ensures a == b
  {
    assert OpFits(s, a) && OpFits(s, b);
    assert s.sched.InOrder(a, b, k) && s.sched.InOrder(b, a, k);
  }

  lemma SetKeepsEntries(s: State, l: Limits, b: OpId, h: nat, x: Cell)
    requires OpsHold(s) && EntriesHold(s) && Possible(s, l, SetCell(b, h, x))
    ensures EntriesHold(After(s, l, SetCell(b, h, x)))
  {
    var t := After(s, l, SetCell(b, h, x));
    assert GroupFits(s, b, h);
    forall c
      ensures EntryFits(t, c)
    {
      assert EntryFits(s, c);
    }
    forall c, j
      ensures SurvivorIsCaught(t, c, j)
    {
      assert EntryFits(s, c) && SurvivorIsCaught(s, c, j);
    }
    forall i: OpId, g: nat, c
      ensures WorksOnOlder(t, i, g, c)
    {
      SetKeepsOlder(s, l, b, h, x, i, g, c);
    }
  }

  lemma SetKeepsOlder(s: State, l: Limits, b: OpId, h: nat, x: Cell, i: OpId, g: nat, c: Cell)
    requires OpsHold(s) && EntriesHold(s) && Possible(s, l, SetCell(b, h, x))
    ensures WorksOnOlder(After(s, l, SetCell(b, h, x)), i, g, c)
  {
    assert GroupFits(s, b, h);
    assert EntryFits(s, c) && WorksOnOlder(s, i, g, c);
    if c == x && Runs(After(s, l, SetCell(b, h, x)), i, g) && c.key in s.ops[i].captures {
      OneWorker(s, i, b, x.key);
    }
  }

  /** The check after the writes catches every entry that an invalidation has already passed over. */
  lemma CheckKeepsEntries(s: State, l: Limits, b: OpId, h: nat)
    requires CapturesHold(s) && OpsHold(s) && EntriesHold(s) && Possible(s, l, Check(b, h))
    ensures EntriesHold(After(s, l, Check(b, h)))
  {
    var t := After(s, l, Check(b, h));
    assert GroupFits(s, b, h) && OpFits(s, b);
    forall c
      ensures EntryFits(t, c)
    {
      assert EntryFits(s, c);
    }
    forall c, j
      ensures SurvivorIsCaught(t, c, j)
    {
      assert EntryFits(s, c) && SurvivorIsCaught(s, c, j);
      if c in s.cells && s.cells[c] == Entry(b, h) {
        assert CaptureIsOutdated(s, s.ops[b].captures[c.key], j);
      }
    }
    forall i: OpId, g: nat, c
      ensures WorksOnOlder(t, i, g, c)
    {
      assert EntryFits(s, c) && WorksOnOlder(s, i, g, c);
    }
  }

  lemma CleanKeepsEntries(s: State, l: Limits, b: OpId, h: nat, x: Cell)
    requires OpsHold(s) && EntriesHold(s) && Possible(s, l, CleanCell(b, h, x))
    ensures EntriesHold(After(s, l, CleanCell(b, h, x)))
  {
    var t := After(s, l, CleanCell(b, h, x));
    forall c
      ensures EntryFits(t, c)
    {
      assert EntryFits(s, c);
    }
    forall c, j
      ensures SurvivorIsCaught(t, c, j)
    {
      assert EntryFits(s, c) && SurvivorIsCaught(s, c, j);
    }
    forall i: OpId, g: nat, c
      ensures WorksOnOlder(t, i, g, c)
    {
      assert EntryFits(s, c) && WorksOnOlder(s, i, g, c);
    }
  }

  /** A step of an operation. */
  predicate IsWork(e: Event) {
    e.Begin? || e.SetCell? || e.Check? || e.CleanCell?
  }

  /** Every other step stores nothing and moves no group. */
  lemma StepIsCalmer(s: State, l: Limits, e: Event)
    requires OpsHold(s) && Possible(s, l, e) && !IsWork(e)
    ensures Calmer(s, After(s, l, e))
  {
    match e
    case Submit(w) => SubmitIsCalmer(s, l, w);
    case Invalidate(_, _) => InvalidateIsCalmer(s, l, e);
    case Clear(_) => InvalidateIsCalmer(s, l, e);
    case DropCell(_, _) => DropIsCalmer(s, l, e);
    case DropLayer(_, _) => DropIsCalmer(s, l, e);
    case Evict(_) => DropIsCalmer(s, l, e);
    case Sweep(_) => DropIsCalmer(s, l, e);
    case _ => SlotIsCalmer(s, l, e);
  }

  lemma WorkKeepsEntries(s: State, l: Limits, e: Event)
    requires CapturesHold(s) && OpsHold(s) && EntriesHold(s) && Possible(s, l, e) && IsWork(e)
    ensures EntriesHold(After(s, l, e))
  {
    match e
    case Begin(i) => BeginKeepsEntries(s, l, i);
    case SetCell(i, g, c) => SetKeepsEntries(s, l, i, g, c);
    case Check(i, g) => CheckKeepsEntries(s, l, i, g);
    case CleanCell(i, g, c) => CleanKeepsEntries(s, l, i, g, c);
  }

  lemma StepKeepsEntries(s: State, l: Limits, e: Event)
    requires CapturesHold(s) && OpsHold(s) && EntriesHold(s) && Possible(s, l, e)
    ensures EntriesHold(After(s, l, e))
  {
    if IsWork(e) {
      WorkKeepsEntries(s, l, e);
    } else {
      StepIsCalmer(s, l, e);
      CalmerKeepsEntries(s, After(s, l, e));
    }
  }

  /** Every interleaving keeps the protocol's invariants. */
  lemma StepKeepsValid(s: State, l: Limits, e: Event)
    requires Valid(s) && Possible(s, l, e)
    ensures Valid(After(s, l, e))
  {
    StepKeepsCaptures(s, l, e);
    StepKeepsOps(s, l, e);
    StepKeepsEntries(s, l, e);
  }

  lemma {:induction false} RunKeepsValid(s: State, l: Limits, events: seq<Event>)
    requires Valid(s) && RunFrom(s, l, events).Some?
    ensures Valid(RunFrom(s, l, events).value)
    decreases |events|
  {
    if events == [] {
    } else {
      RunKeepsValid(s, l, events[..|events|-1]);
      StepKeepsValid(RunFrom(s, l, events[..|events|-1]).value, l, events[|events|-1]);
    }
  }

  lemma ReachableIsValid(l: Limits, events: seq<Event>)
    requires Run(l, events).Some?
    ensures Valid(Run(l, events).value)
  {
    assert Valid(START);
    RunKeepsValid(START, l, events);
  }

  // ---- what the protocol promises ----

  /** Stale-write safety.  In every state that any interleaving reaches: once invalidation `j` has deleted a
      cell and no operation is queued or running on the cell's key, the layer's entry, if there is one, was
      stored by a write whose fence was captured after the invalidation began. */
  lemma StaleWriteSafety(l: Limits, events: seq<Event>, j: nat, c: Cell)
    requires Run(l, events).Some?
    requires var s := Run(l, events).value;
             && j < |s.invalidations| && Covers(s.invalidations[j], c.key) && Dropped(s.invalidations[j], c)
             && c.key !in s.sched.writeChains
             && c in s.cells
    ensures var s := Run(l, events).value;
            && s.cells[c].op < |s.ops| && c.key in s.ops[s.cells[c].op].captures
            && j < s.ops[s.cells[c].op].captures[c.key].at
  {
    ReachableIsValid(l, events);
    var s := Run(l, events).value;
    var e := s.cells[c];
    assert EntryFits(s, c) && SurvivorIsCaught(s, c, j);
    assert OpFits(s, e.op) && GroupFits(s, e.op, e.group);
    assert s.sched.ChainIsLast(e.op, c.key);
  }

  /** Newer writes survive.  When a write is about to store or clean up a cell, the entry it replaces or
      deletes is never from a fence captured after an invalidation that made the write stale. */
  lemma NewerWritesSurvive(l: Limits, events: seq<Event>, e: Event, j: nat)
    requires Run(l, events).Some?
    requires Possible(Run(l, events).value, l, e)
    requires e.SetCell? || e.CleanCell?
    requires var s := Run(l, events).value;
             && e.cell in s.cells
             && e.cell.key in s.ops[e.op].captures
             && Precedes(s, s.ops[e.op].captures[e.cell.key], j)
    ensures var s := Run(l, events).value;
            && s.cells[e.cell].op < |s.ops| && e.cell.key in s.ops[s.cells[e.cell].op].captures
            && s.ops[s.cells[e.cell].op].captures[e.cell.key].at <= j
  {
    ReachableIsValid(l, events);
    var s := Run(l, events).value;
    var w := s.cells[e.cell].op;
    assert EntryFits(s, e.cell) && WorksOnOlder(s, e.op, e.group, e.cell);
    assert OpFits(s, e.op) && OpFits(s, w) && GroupFits(s, e.op, e.group);
    assert CapturesAreApart(s, s.ops[e.op].captures[e.cell.key], s.ops[w].captures[e.cell.key], j);
  }

  /** A check that lets a key stand proves that nothing invalidated the key since its fence was captured. */
  lemma PassedCheckMeansUntouched(l: Limits, events: seq<Event>, i: OpId, g: nat, k: Key, j: nat)
    requires Run(l, events).Some?
    requires Possible(Run(l, events).value, l, Check(i, g))
    requires var s := Run(l, events).value;
             var stage := CheckStage(s.table, s.ops[i], s.ops[i].groups[g]);
             k in stage.active && k !in stage.stale
    ensures var s := Run(l, events).value;
            k in s.ops[i].captures && !Precedes(s, s.ops[i].captures[k], j)
  {
    ReachableIsValid(l, events);
    var s := Run(l, events).value;
    assert OpFits(s, i) && GroupFits(s, i, g);
    assert CaptureIsOutdated(s, s.ops[i].captures[k], j);
  }

  /** An invalidation of other keys leaves the current fence of an open write current if and only if it leaves the
      key undisturbed in the epoch table; so it always does while there is room in the table. */
  lemma InvalidationSparesIff(l: Limits, events: seq<Event>, keys: seq<Key>, layers: set<LayerId>, i: OpId, k: Key)
    requires Run(l, events).Some?
    requires var s := Run(l, events).value;
             && k !in keys && i < |s.ops| && k in s.ops[i].captures
             && s.table.Current(k) == s.ops[i].captures[k].fence
    ensures var s := Run(l, events).value;
            && Possible(s, l, Invalidate(keys, layers))
            && var t := After(s, l, Invalidate(keys, layers));
               && i < |t.ops| && k in t.ops[i].captures
               && (t.table.Current(k) == t.ops[i].captures[k].fence <==> Undisturbed(s.table, keys, k))
               && (Together(s.table, keys) <= MAX_KEY_EPOCHS && s.table.nextKeyEpoch + |keys| <= MAX_SAFE_INTEGER ==>
                     t.table.Current(k) == t.ops[i].captures[k].fence)
  {
    ReachableIsValid(l, events);
    BumpSparesIff(Run(l, events).value.table, keys, k);
  }

  // ---- how a group moves on ----

  /** No step takes a group back: its keys are fixed when it begins, its stale keys when it checks. */
  ghost predicate GroupMoves(s: State, t: State, i: OpId, g: nat) {
    HasGroup(s, i, g) ==>
      && i < |t.ops| && |t.ops[i].groups| == |s.ops[i].groups| && t.ops[i].captures == s.ops[i].captures
      && var from, to := StageOf(s, i, g), StageOf(t, i, g);
         && (from.NotStarted? ==> !to.Cleaning?)
         && (from.Writing? ==> !to.NotStarted? && to.active == from.active)
         && (from.Writing? && to.Cleaning? ==> to.stale == from.active - ActiveKeys(s.table, s.ops[i]))
         && (from.Cleaning? ==> to.Cleaning? && to.active == from.active && to.stale == from.stale)
  }

  lemma StageMovesGroup(s: State, u: State, i: OpId, g: nat, stage: Stage, j: OpId, h: nat)
    requires HasGroup(s, i, g) && u.ops == s.ops
    requires var from := StageOf(s, i, g);
             (exists c :: stage == Done(from, c))
             || (from.Writing? && stage == CheckStage(s.table, s.ops[i], s.ops[i].groups[g]))
    ensures GroupMoves(s, WithStage(u, i, g, stage), j, h)
  {
  }

  lemma BeginMovesGroup(s: State, l: Limits, b: OpId, i: OpId, g: nat)
    requires OpsHold(s) && Possible(s, l, Begin(b))
    ensures GroupMoves(s, After(s, l, Begin(b)), i, g)
  {
    assert GroupFits(s, i, g);
  }

  /** Steps that leave the operations as they are, or add one. */
  lemma RestMovesGroup(s: State, t: State, i: OpId, g: nat)
    requires |s.ops| <= |t.ops| && t.ops[..|s.ops|] == s.ops
    ensures GroupMoves(s, t, i, g)
  {
    if i < |s.ops| {
      assert t.ops[..|s.ops|][i] == t.ops[i];
    }
  }

  lemma StepMovesGroup(s: State, l: Limits, e: Event, i: OpId, g: nat)
    requires OpsHold(s) && Possible(s, l, e)
    ensures GroupMoves(s, After(s, l, e), i, g)
  {
    match e
    case Begin(b) => BeginMovesGroup(s, l, b, i, g);
    case SetCell(j, h, c) =>
      StageMovesGroup(s, s.(cells := s.cells[c := Entry(j, h)]), j, h, Done(StageOf(s, j, h), c), i, g);
    case Check(j, h) => StageMovesGroup(s, s, j, h, CheckStage(s.table, s.ops[j], s.ops[j].groups[h]), i, g);
    case CleanCell(j, h, c) =>
      StageMovesGroup(s, s.(cells := s.cells - {c}), j, h, Done(StageOf(s, j, h), c), i, g);
    case _ => RestMovesGroup(s, After(s, l, e), i, g);
  }

  // ---- an operation that a timeout or another invalidation has overtaken ----

  /** The operation's result for a key: every group wrote it and found it current afterwards. */
  predicate Committed(s: State, i: OpId, k: Key)
    requires i < |s.ops|
  {
    forall g :: 0 <= g < |s.ops[i].groups| ==>
                  var stage := s.ops[i].groups[g].stage;
                  stage.Cleaning? && k in stage.active && k !in stage.stale
  }

  /** The group has not passed its check on the key. */
  ghost predicate GroupNotPassed(s: State, i: OpId, g: nat, k: Key) {
    HasGroup(s, i, g) && StageOf(s, i, g).Cleaning? ==> k !in StageOf(s, i, g).active || k in StageOf(s, i, g).stale
  }

  /** If operation `i` has a fence for `k` from before invalidation `j`, it has not passed a check on `k`. */
  ghost predicate Overtaken(s: State, i: OpId, k: Key, j: nat) {
    i < |s.ops| && k in s.ops[i].captures && Precedes(s, s.ops[i].captures[k], j) ==>
      forall g :: GroupNotPassed(s, i, g, k)
  }

  lemma StepKeepsOvertaken(s: State, l: Limits, e: Event, i: OpId, k: Key, j: nat)
    requires Valid(s) && Possible(s, l, e) && j < |s.invalidations|
    requires Overtaken(s, i, k, j)
    ensures Overtaken(After(s, l, e), i, k, j)
  {
    if i < |s.ops| {
      OldStaysOvertaken(s, l, e, i, k, j);
    } else if i < |After(s, l, e).ops| {
      LayoutFits(s, e.write);
    }
  }

  lemma OldStaysOvertaken(s: State, l: Limits, e: Event, i: OpId, k: Key, j: nat)
    requires Valid(s) && Possible(s, l, e) && j < |s.invalidations| && i < |s.ops|
    requires Overtaken(s, i, k, j)
    ensures Overtaken(After(s, l, e), i, k, j)
  {
    var t := After(s, l, e);
    CapturesStay(s, l, e, i);
    CoverageStays(s, l, e, j, k);
    if k in s.ops[i].captures && Precedes(t, s.ops[i].captures[k], j) {
      assert OpFits(s, i) && CaptureIsOutdated(s, s.ops[i].captures[k], j);
      forall g: nat
        ensures GroupNotPassed(t, i, g, k)
      {
        StepMovesGroup(s, l, e, i, g);
        assert GroupNotPassed(s, i, g, k);
      }
    }
  }

  lemma CapturesStay(s: State, l: Limits, e: Event, i: OpId)
    requires Possible(s, l, e) && i < |s.ops|
    ensures i < |After(s, l, e).ops| && After(s, l, e).ops[i].captures == s.ops[i].captures
    ensures |After(s, l, e).ops[i].groups| == |s.ops[i].groups|
  {
  }

  lemma CoverageStays(s: State, l: Limits, e: Event, j: nat, k: Key)
    requires Possible(s, l, e) && j < |s.invalidations|
    ensures j < |After(s, l, e).invalidations|
    ensures Covers(After(s, l, e).invalidations[j], k) <==> Covers(s.invalidations[j], k)
  {
  }

  /** An invalidation stays on record, and what it covers does not change. */
  lemma {:induction false} InvalidationsStay(s: State, l: Limits, events: seq<Event>, j: nat)
    requires RunFrom(s, l, events).Some? && j < |s.invalidations|
    ensures j < |RunFrom(s, l, events).value.invalidations|
    ensures forall k :: Covers(s.invalidations[j], k) ==> Covers(RunFrom(s, l, events).value.invalidations[j], k)
    decreases |events|
  {
    if events == [] {
    } else {
      InvalidationsStay(s, l, events[..|events|-1], j);
    }
  }

  lemma {:induction false} RunKeepsOvertaken(s: State, l: Limits, events: seq<Event>, i: OpId, k: Key, j: nat)
    requires Valid(s) && RunFrom(s, l, events).Some? && j < |s.invalidations|
    requires Overtaken(s, i, k, j)
    ensures Overtaken(RunFrom(s, l, events).value, i, k, j)
    decreases |events|
  {
    if events == [] {
    } else {
      var before := events[..|events|-1];
      RunKeepsOvertaken(s, l, before, i, k, j);
      InvalidationsStay(s, l, before, j);
      RunKeepsValid(s, l, before);
      StepKeepsOvertaken(RunFrom(s, l, before).value, l, events[|events|-1], i, k, j);
    }
  }

  /** The event by which the stampede guard's timeout hook reaches the fences: a bump without deletions. */
  function Timeout(k: Key): Event {
    Invalidate([k], {})
  }

  /** A timed-out fetch is fenced.  Take any state in which the guard times out the fetch of `k`, and any
      operation `i`, already admitted or admitted later, whose fence for `k` was captured before and which has
      not passed its check on `k` by then.  However the run goes on, once that operation is over it reports
      not committed and has left nothing of its own for `k` in any layer. */
  lemma TimedOutFetchIsFenced(l: Limits, history: seq<Event>, k: Key, later: seq<Event>, i: OpId)
    requires Run(l, history).Some?
    requires RunFrom(After(Run(l, history).value, l, Timeout(k)), l, later).Some?
    requires var s := Run(l, history).value;
             var t := RunFrom(After(s, l, Timeout(k)), l, later).value;
             && i < |t.ops| && i < |t.sched.slots| && t.sched.slots[i].phase in {Settled, Released}
             && k in t.ops[i].captures && t.ops[i].captures[k] in s.captured
             && t.ops[i].groups != []
             && forall g :: GroupNotPassed(s, i, g, k)
    ensures var t := RunFrom(After(Run(l, history).value, l, Timeout(k)), l, later).value;
            && !Committed(t, i, k)
            && forall c :: c in t.cells && c.key == k ==> t.cells[c].op != i
  {
    ReachableIsValid(l, history);
    var s := Run(l, history).value;
    var u := After(s, l, Timeout(k));
    var t := RunFrom(u, l, later).value;
    var j := |s.invalidations|;
    StepKeepsValid(s, l, Timeout(k));
    assert forall g :: GroupNotPassed(s, i, g, k) ==> GroupNotPassed(u, i, g, k);
    RunKeepsValid(u, l, later);
    RunKeepsOvertaken(u, l, later, i, k, j);
    InvalidationsStay(u, l, later, j);
    assert CaptureIsPast(s, t.ops[i].captures[k]) && OpFits(t, i);
    assert Covers(u.invalidations[j], k);
    assert Precedes(t, t.ops[i].captures[k], j);
    OvertakenLeavesNothing(t, i, k, j);
  }

  /** A finished operation that was overtaken has found the key stale in every group, and cleaned up. */
  lemma OvertakenLeavesNothing(t: State, i: OpId, k: Key, j: nat)
    requires Valid(t) && i < |t.ops| && i < |t.sched.slots| && t.sched.slots[i].phase in {Settled, Released}
    requires k in t.ops[i].captures && Precedes(t, t.ops[i].captures[k], j) && Overtaken(t, i, k, j)
    requires t.ops[i].groups != []
    ensures !Committed(t, i, k)
    ensures forall c :: c in t.cells && c.key == k ==> t.cells[c].op != i
  {
    assert GroupNotPassed(t, i, 0, k) && GroupFits(t, i, 0);
    forall c | c in t.cells && c.key == k
      ensures t.cells[c].op != i
    {
      var e := t.cells[c];
      assert EntryFits(t, c);
      assert GroupNotPassed(t, i, e.group, k) && GroupFits(t, i, e.group);
    }
  }

  lemma {:induction false} RunSplits(s: State, l: Limits, before: seq<Event>, after: seq<Event>)
    requires RunFrom(s, l, before).Some?
    ensures RunFrom(s, l, before + after) == RunFrom(RunFrom(s, l, before).value, l, after)
    decreases |after|
  {
    if after == [] {
      assert before + after == before;
    } else {
      var n := |after| - 1;
      assert (before + after)[..|before + after|-1] == before + after[..n];
      RunSplits(s, l, before, after[..n]);
    }
  }

  /** It cannot disturb a retry either: whatever the timed-out fetch stores or cleans up afterwards, the entry
      it touches is not from a fence that was captured after the timeout. */
  lemma TimedOutFetchSparesRetry(l: Limits, history: seq<Event>, k: Key, later: seq<Event>, e: Event)
    requires Run(l, history).Some?
    requires RunFrom(After(Run(l, history).value, l, Timeout(k)), l, later).Some?
    requires var s := Run(l, history).value;
             var t := RunFrom(After(s, l, Timeout(k)), l, later).value;
             && Possible(t, l, e) && (e.SetCell? || e.CleanCell?)
             && e.cell.key == k && e.cell in t.cells
             && k in t.ops[e.op].captures && t.ops[e.op].captures[k] in s.captured
    ensures var s := Run(l, history).value;
            var t := RunFrom(After(s, l, Timeout(k)), l, later).value;
            && t.cells[e.cell].op < |t.ops| && k in t.ops[t.cells[e.cell].op].captures
            && t.ops[t.cells[e.cell].op].captures[k].at <= |s.invalidations|
  {
    var s := Run(l, history).value;
    var j := |s.invalidations|;
    var all := TimeoutPrecedes(l, history, k, later, e.op);
    NewerWritesSurvive(l, all, e, j);
  }

  /** The whole run, and the timeout as one of its invalidations. */
  lemma TimeoutPrecedes(l: Limits, history: seq<Event>, k: Key, later: seq<Event>, i: OpId) returns (all: seq<Event>)
    requires Run(l, history).Some?
    requires RunFrom(After(Run(l, history).value, l, Timeout(k)), l, later).Some?
    requires var s := Run(l, history).value;
             var t := RunFrom(After(s, l, Timeout(k)), l, later).value;
             i < |t.ops| && k in t.ops[i].captures && t.ops[i].captures[k] in s.captured
    ensures var s := Run(l, history).value;
            var t := RunFrom(After(s, l, Timeout(k)), l, later).value;
            Run(l, all) == Some(t) && Precedes(t, t.ops[i].captures[k], |s.invalidations|)
  {
    var s := Run(l, history).value;
    var u := After(s, l, Timeout(k));
    var t := RunFrom(u, l, later).value;
    var j := |s.invalidations|;
    var start := history + [Timeout(k)];
    assert start[..|start|-1] == history;
    assert Run(l, start) == Some(u);
    RunSplits(START, l, start, later);
    all := start + later;
    ReachableIsValid(l, history);
    ReachableIsValid(l, all);
    InvalidationsStay(u, l, later, j);
    assert Covers(u.invalidations[j], k);
    assert CaptureIsPast(s, t.ops[i].captures[k]) && OpFits(t, i);
  }
}
