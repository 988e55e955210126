/** What an admitted write does as a whole: which cells it stores, in every run, and that it can always be brought to
    its end.  Both are said in terms of the write itself, its keys, layers and fences.

    In `FencedWrites` a write is laid out as groups of cells that go through stages; nothing here mentions these in
    its statement.  So a layout that left cells out, or a stage that let outdated keys through or never finished,
    would contradict the theorems below. */
module WriteCompletion {
  import opened OrderedMap
  import opened Keys
  import opened Epochs
  import opened WriteScheduler
  import opened FencedWrites
  import opened CommittedEntries

  function KeysOf(w: Write): set<Key> {
    match w
    case Fenced(c, _, _) => {c.key}
    case Batch(captures, _) => captures.Keys
  }

  function LayersOf(w: Write): set<LayerId> {
    match w
    case Fenced(_, writes, _) => writes
    case Batch(_, layers) => set y | y in layers
  }

  function CaptureOf(w: Write, k: Key): Capture
    requires k in KeysOf(w)
  {
    match w
    case Fenced(c, _, _) => c
    case Batch(captures, _) => captures[k]
  }

  /** The write stores the cell: its layer and key are the write's, and in that table the key's fence is current. */
  predicate Wants(w: Write, t: Table, c: Cell) {
    c.layer in LayersOf(w) && c.key in KeysOf(w) && !t.Outdated(c.key, CaptureOf(w, c.key).fence)
  }

  /** One of the events is a store of the operation to the cell. */
  ghost predicate Stores(events: seq<Event>, i: OpId, c: Cell) {
    exists g :: SetCell(i, g, c) in events
  }

  // ---- the layout ----

  lemma LayoutOf(w: Write)
    ensures Layout(w).captures.Keys == KeysOf(w)
    ensures forall k :: k in KeysOf(w) ==> Layout(w).captures[k] == CaptureOf(w, k)
    ensures forall c: Cell :: c.layer in LayersOf(w) && c.key in KeysOf(w) <==>
                        exists g :: 0 <= g < |Layout(w).groups| && c in Layout(w).groups[g].sets
  {
    forall c: Cell
      ensures c.layer in LayersOf(w) && c.key in KeysOf(w) <==>
              exists g :: 0 <= g < |Layout(w).groups| && c in Layout(w).groups[g].sets
    {
      CellIsLaidOut(w, c);
    }
  }

  lemma CellIsLaidOut(w: Write, c: Cell)
    ensures c.layer in LayersOf(w) && c.key in KeysOf(w) <==>
            exists g :: 0 <= g < |Layout(w).groups| && c in Layout(w).groups[g].sets
  {
    match w
    case Fenced(v, writes, _) =>
      assert Layout(w).groups[0].sets == Cells(writes, {v.key});
    case Batch(captures, layers) =>
      if c.layer in LayersOf(w) && c.key in KeysOf(w) {
        var g :| 0 <= g < |layers| && layers[g] == c.layer;
        assert c in Layout(w).groups[g].sets;
      }
  }

  // ---- in every run, exactly the wanted cells are stored ----

  /** How far a group is, given the table in which its operation began, if it has. */
  ghost predicate GroupProgress(s: State, events: seq<Event>, i: OpId, op: Op, g: nat, begun: Option<Table>) {
    HasGroup(s, i, g) && g < |op.groups| && s.ops[i].groups[g].sets == op.groups[g].sets
    && match begun
       case None => forall c :: SetCell(i, g, c) !in events
       case Some(t) =>
         && !StageOf(s, i, g).NotStarted? && StageOf(s, i, g).active == FencedWrites.ActiveKeys(t, op)
         && forall c ::
              && (SetCell(i, g, c) in events ==> c in op.groups[g].sets && c.key in FencedWrites.ActiveKeys(t, op))
              && (c in op.groups[g].sets && c.key in FencedWrites.ActiveKeys(t, op) ==>
                    SetCell(i, g, c) in events || (StageOf(s, i, g).Writing? && c in StageOf(s, i, g).todo))
  }

  ghost predicate Progress(s: State, events: seq<Event>, i: OpId, op: Op, begun: Option<Table>) {
    && i < |s.ops| && i < |s.sched.slots|
    && s.ops[i].captures == op.captures && |s.ops[i].groups| == |op.groups|
    && (begun.None? <==> s.sched.slots[i].phase == Waiting)
    && (forall g :: 0 <= g < |op.groups| ==> GroupProgress(s, events, i, op, g, begun))
    && (forall g, c :: g >= |op.groups| ==> SetCell(i, g, c) !in events)
  }

  lemma SubmitProgress(s: State, l: Limits, w: Write)
    requires Valid(s) && Possible(s, l, Submit(w))
    ensures Progress(After(s, l, Submit(w)), [], |s.ops|, Layout(w), None)
  {
  }

  /** What the step makes of the table in which the operation began. */
  function BegunAfter(s: State, e: Event, i: OpId, begun: Option<Table>): Option<Table> {
    if e == Begin(i) then Some(s.table) else begun
  }

  lemma StepProgress(s: State, l: Limits, events: seq<Event>, e: Event, i: OpId, op: Op, begun: Option<Table>)
    requires Valid(s) && Possible(s, l, e) && Progress(s, events, i, op, begun)
    ensures Progress(After(s, l, e), events + [e], i, op, BegunAfter(s, e, i, begun))
  {
    var t := After(s, l, e);
    CapturesStay(s, l, e, i);
    PhaseProgress(s, l, e, i);
    forall g | 0 <= g < |op.groups|
      ensures GroupProgress(t, events + [e], i, op, g, BegunAfter(s, e, i, begun))
    {
      assert GroupProgress(s, events, i, op, g, begun);
      StepGroupProgress(s, l, events, e, i, op, g, begun);
    }
  }

  lemma PhaseProgress(s: State, l: Limits, e: Event, i: OpId)
    requires OpsHold(s) && Possible(s, l, e) && i < |s.ops|
    ensures i < |After(s, l, e).sched.slots|
    ensures After(s, l, e).sched.slots[i].phase == Waiting <==> s.sched.slots[i].phase == Waiting && e != Begin(i)
  {
  }

  lemma StepGroupProgress(s: State, l: Limits, events: seq<Event>, e: Event, i: OpId, op: Op, g: nat,
                          begun: Option<Table>)
    requires Valid(s) && Possible(s, l, e) && i < |s.sched.slots| && i < |s.ops| && s.ops[i].captures == op.captures
    requires (begun.None? <==> s.sched.slots[i].phase == Waiting) && GroupProgress(s, events, i, op, g, begun)
    ensures GroupProgress(After(s, l, e), events + [e], i, op, g, BegunAfter(s, e, i, begun))
  {
    assert GroupFits(s, i, g);
    StepMovesGroup(s, l, e, i, g);
    if e == Begin(i) {
    } else if e.SetCell? && e.op == i && e.group == g {
    } else {
      assert forall c :: SetCell(i, g, c) in events + [e] <==> SetCell(i, g, c) in events;
    }
  }

  /** The operation began at this event, in a state with this table. */
  ghost predicate BeginsAt(s: State, l: Limits, events: seq<Event>, i: OpId, b: nat, t: Table) {
    && b < |events| && events[b] == Begin(i)
    && RunFrom(s, l, events[..b]).Some? && RunFrom(s, l, events[..b]).value.table == t
  }

  lemma {:induction false} RunProgress(s: State, l: Limits, events: seq<Event>, i: OpId, op: Op)
      returns (begun: Option<Table>, b: nat)
    requires Valid(s) && Progress(s, [], i, op, None) && RunFrom(s, l, events).Some?
    ensures Progress(RunFrom(s, l, events).value, events, i, op, begun)
    ensures begun.Some? ==> BeginsAt(s, l, events, i, b, begun.value)
    decreases |events|
  {
    if events == [] {
      begun, b := None, 0;
    } else {
      var n := |events| - 1;
      var before, e := events[..n], events[n];
      begun, b := RunProgress(s, l, before, i, op);
      var u := RunFrom(s, l, before).value;
      RunKeepsValid(s, l, before);
      StepProgress(u, l, before, e, i, op, begun);
      assert before + [e] == events;
      if e == Begin(i) {
        b := n;
      } else if begun.Some? {
        assert before[..b] == events[..b];
      }
      begun := BegunAfter(u, e, i, begun);
    }
  }

  /** When all groups are finished, every active cell has been stored. */
  lemma FinishedStores(t: State, events: seq<Event>, i: OpId, w: Write, table: Table)
    requires Progress(t, events, i, Layout(w), Some(table))
    requires forall g :: 0 <= g < |t.ops[i].groups| ==> Finished(t.ops[i].groups[g])
    ensures forall c :: Stores(events, i, c) <==> Wants(w, table, c)
  {
    LayoutOf(w);
    forall c: Cell
      ensures Stores(events, i, c) <==> Wants(w, table, c)
    {
      CellIsLaidOut(w, c);
      FinishedStoresCell(t, events, i, Layout(w), table, c);
    }
  }

  lemma FinishedStoresCell(t: State, events: seq<Event>, i: OpId, op: Op, table: Table, c: Cell)
    requires Progress(t, events, i, op, Some(table))
    requires forall g :: 0 <= g < |t.ops[i].groups| ==> Finished(t.ops[i].groups[g])
    ensures Stores(events, i, c) <==>
            c.key in FencedWrites.ActiveKeys(table, op) && exists g :: 0 <= g < |op.groups| && c in op.groups[g].sets
  {
    if Stores(events, i, c) {
      var g :| SetCell(i, g, c) in events;
      assert GroupProgress(t, events, i, op, g, Some(table));
    }
    if c.key in FencedWrites.ActiveKeys(table, op) && exists g :: 0 <= g < |op.groups| && c in op.groups[g].sets {
      var g :| 0 <= g < |op.groups| && c in op.groups[g].sets;
      assert GroupProgress(t, events, i, op, g, Some(table));
      assert Finished(t.ops[i].groups[g]);
    }
  }

  /** In every run: once a write has ended, the cells it stored are exactly those of its layers and of its keys whose
      fences were current when it began; so a key it reports committed it stored in all its layers. */
  lemma EndedHasStored(l: Limits, history: seq<Event>, w: Write, later: seq<Event>) returns (b: nat)
    requires Run(l, history).Some? && Possible(Run(l, history).value, l, Submit(w))
    requires var s := Run(l, history).value;
             && RunFrom(After(s, l, Submit(w)), l, later).Some?
             && var t := RunFrom(After(s, l, Submit(w)), l, later).value;
                |s.ops| < |t.sched.slots| && t.sched.slots[|s.ops|].phase in {Settled, Released}
    ensures var s := Run(l, history).value;
            var u, i := After(s, l, Submit(w)), |s.ops|;
            var t := RunFrom(u, l, later).value;
            && b < |later| && later[b] == Begin(i) && RunFrom(u, l, later[..b]).Some?
            && (forall c :: Stores(later, i, c) <==> Wants(w, RunFrom(u, l, later[..b]).value.table, c))
            && i < |t.ops|
            && (forall y, k :: y in LayersOf(w) && k in KeysOf(w) && Committed(t, i, k) ==>
                                 Stores(later, i, Cell(y, k)))
  {
    var s := Run(l, history).value;
    var u, i := After(s, l, Submit(w)), |s.ops|;
    var t := RunFrom(u, l, later).value;
    ReachableIsValid(l, history);
    FencedWrites.StepKeepsValid(s, l, Submit(w));
    SubmitProgress(s, l, w);
    var begun;
    begun, b := RunProgress(u, l, later, i, Layout(w));
    RunKeepsValid(u, l, later);
    forall g | 0 <= g < |t.ops[i].groups|
      ensures Finished(t.ops[i].groups[g])
    {
      assert GroupFits(t, i, g);
    }
    FinishedStores(t, later, i, w, begun.value);
    forall y, k | y in LayersOf(w) && k in KeysOf(w) && Committed(t, i, k)
      ensures Stores(later, i, Cell(y, k))
    {
      CellIsLaidOut(w, Cell(y, k));
      CommittedIsActive(t, later, i, Layout(w), begun.value, Cell(y, k));
      FinishedStoresCell(t, later, i, Layout(w), begun.value, Cell(y, k));
    }
  }

  lemma CommittedIsActive(t: State, events: seq<Event>, i: OpId, op: Op, table: Table, c: Cell)
    requires Progress(t, events, i, op, Some(table)) && Committed(t, i, c.key)
    requires exists g :: 0 <= g < |op.groups| && c in op.groups[g].sets
    ensures c.key in FencedWrites.ActiveKeys(table, op)
  {
    var g :| 0 <= g < |op.groups| && c in op.groups[g].sets;
    assert GroupProgress(t, events, i, op, g, Some(table));
  }

  // ---- a running operation can always be brought to its end ----

  /** What is left of a group: its outstanding stores, its check, and the deletes that can still come. */
  function GroupLeft(g: Group): nat {
    match g.stage
    case NotStarted => 0
    case Writing(_, todo) => |todo| + 1 + |g.cleanup|
    case Cleaning(_, _, todo) => |todo|
  }

  function Left(groups: seq<Group>): nat {
    if groups == [] then 0 else GroupLeft(groups[0]) + Left(groups[1..])
  }

  lemma {:induction false} LeftFalls(groups: seq<Group>, g: nat, h: Group)
    requires g < |groups|
    ensures Left(groups[g := h]) == Left(groups) - GroupLeft(groups[g]) + GroupLeft(h)
  {
    if g == 0 {
      assert groups[0 := h][1..] == groups[1..];
    } else {
      assert groups[g := h][1..] == groups[1..][g - 1 := h];
      LeftFalls(groups[1..], g - 1, h);
    }
  }

  predicate IsRunning(s: State, i: OpId) {
    i < |s.ops| && i < |s.sched.slots| && s.sched.slots[i].phase == Running
  }

  /** A step of the operation's own work. */
  predicate IsOwn(e: Event, i: OpId) {
    (e.SetCell? || e.Check? || e.CleanCell? || e.End?) && e.op == i
  }

  ghost predicate AllOwn(events: seq<Event>, i: OpId) {
    forall n :: 0 <= n < |events| ==> IsOwn(events[n], i)
  }

  /** The next step of an unfinished group. */
  lemma GroupCanStep(s: State, l: Limits, i: OpId, g: nat) returns (e: Event)
    requires Valid(s) && IsRunning(s, i) && HasGroup(s, i, g) && !Finished(s.ops[i].groups[g])
    ensures IsOwn(e, i) && Possible(s, l, e) && IsRunning(After(s, l, e), i)
    ensures Left(After(s, l, e).ops[i].groups) < Left(s.ops[i].groups)
  {
    assert GroupFits(s, i, g);
    var gr := s.ops[i].groups[g];
    if gr.stage.todo != {} {
      var c :| c in gr.stage.todo;
      e := if gr.stage.Writing? then SetCell(i, g, c) else CleanCell(i, g, c);
      DoneIsLess(gr, c);
      LeftFalls(s.ops[i].groups, g, gr.(stage := Done(gr.stage, c)));
    } else {
      e := Check(i, g);
      var next := gr.(stage := CheckStage(s.table, s.ops[i], gr));
      CheckIsLess(s.table, s.ops[i], gr);
      LeftFalls(s.ops[i].groups, g, next);
    }
  }

  lemma DoneIsLess(g: Group, c: Cell)
    requires !g.stage.NotStarted? && c in g.stage.todo
    ensures GroupLeft(g.(stage := Done(g.stage, c))) < GroupLeft(g)
  {
  }

  lemma CheckIsLess(t: Table, op: Op, g: Group)
    requires g.stage.Writing?
    ensures GroupLeft(g.(stage := CheckStage(t, op, g))) < GroupLeft(g)
  {
    CardinalityOfSubset(CheckStage(t, op, g).todo, g.cleanup);
  }

  /** Whatever a running operation still has to do, its own steps can do it, without any other step in between. */
  lemma {:induction false} RunningCanEnd(s: State, l: Limits, i: OpId) returns (events: seq<Event>)
    requires Valid(s) && IsRunning(s, i)
    ensures RunFrom(s, l, events).Some?
    ensures AllOwn(events, i)
    ensures var t := RunFrom(s, l, events).value;
            i < |t.sched.slots| && t.sched.slots[i].phase == Settled
    decreases Left(s.ops[i].groups)
  {
    var e: Event;
    if forall g :: 0 <= g < |s.ops[i].groups| ==> Finished(s.ops[i].groups[g]) {
      e := End(i);
      events := [e];
      StepFirst(s, l, e, []);
    } else {
      var g: nat :| g < |s.ops[i].groups| && !Finished(s.ops[i].groups[g]);
      e := GroupCanStep(s, l, i, g);
      FencedWrites.StepKeepsValid(s, l, e);
      var rest := RunningCanEnd(After(s, l, e), l, i);
      events := [e] + rest;
      StepFirst(s, l, e, rest);
    }
  }

  lemma StepFirst(s: State, l: Limits, e: Event, rest: seq<Event>)
    requires Possible(s, l, e)
    ensures RunFrom(s, l, [e] + rest) == RunFrom(After(s, l, e), l, rest)
  {
    assert [e][..0] == [];
    assert RunFrom(s, l, [e]) == Some(After(s, l, e));
    FencedWrites.RunSplits(s, l, [e], rest);
  }

  // ---- a write on free keys, alone ----

  /** The cell holds the same entry in both states, or none. */
  predicate SameEntry(s: State, t: State, c: Cell) {
    (c in t.cells <==> c in s.cells) && (c in s.cells ==> t.cells[c] == s.cells[c])
  }

  /** Between two states only this operation has worked: nothing was invalidated, so it finds nothing stale, and the
      cells it stored hold its entry while all others are as they were. */
  ghost predicate Alone(s: State, t: State, events: seq<Event>, i: OpId) {
    && t.table == s.table && t.captured == s.captured
    && t.invalidations == s.invalidations && t.sightings == s.sightings
    && (forall g :: HasGroup(t, i, g) && StageOf(t, i, g).Cleaning? ==> StageOf(t, i, g).stale == {})
    && (forall c :: if Stores(events, i, c) then c in t.cells && t.cells[c].op == i else SameEntry(s, t, c))
  }

  lemma OneMoreEvent(events: seq<Event>, e: Event, i: OpId, c: Cell)
    ensures Stores(events + [e], i, c) <==> Stores(events, i, c) || (e.SetCell? && e.op == i && e.cell == c)
  {
    if e.SetCell? && e.op == i && e.cell == c {
      assert e == SetCell(i, e.group, c) && e in events + [e];
    }
    if Stores(events + [e], i, c) {
      var g :| SetCell(i, g, c) in events + [e];
      assert SetCell(i, g, c) in events || SetCell(i, g, c) == e;
    }
    if Stores(events, i, c) {
      var g :| SetCell(i, g, c) in events;
      assert SetCell(i, g, c) in events + [e];
    }
  }

  /** The step of an operation that works alone. */
  lemma OwnStep(u: State, l: Limits, events: seq<Event>, e: Event, i: OpId, op: Op)
    requires Valid(u) && Possible(u, l, e) && IsOwn(e, i) && Progress(u, events, i, op, Some(u.table))
    requires forall g :: HasGroup(u, i, g) && StageOf(u, i, g).Cleaning? ==> StageOf(u, i, g).stale == {}
    ensures var t := After(u, l, e);
            && t.table == u.table && t.captured == u.captured && t.invalidations == u.invalidations
            && t.sightings == u.sightings
            && t.cells == if e.SetCell? then u.cells[e.cell := Entry(i, e.group)] else u.cells
    ensures forall g :: HasGroup(After(u, l, e), i, g) && StageOf(After(u, l, e), i, g).Cleaning? ==>
                          StageOf(After(u, l, e), i, g).stale == {}
  {
    forall g: nat
      ensures HasGroup(u, i, g) && IsRunning(u, i) && StageOf(u, i, g).Cleaning? && StageOf(u, i, g).stale == {} ==>
                StageOf(u, i, g).todo == {}
    {
      assert GroupFits(u, i, g);
    }
    forall g | HasGroup(After(u, l, e), i, g) && StageOf(After(u, l, e), i, g).Cleaning?
      ensures StageOf(After(u, l, e), i, g).stale == {}
    {
      assert GroupProgress(u, events, i, op, g, Some(u.table));
      StepMovesGroup(u, l, e, i, g);
    }
  }

  lemma CellsAlone(s: State, u: State, t: State, events: seq<Event>, e: Event, i: OpId)
    requires forall c :: if Stores(events, i, c) then c in u.cells && u.cells[c].op == i else SameEntry(s, u, c)
    requires IsOwn(e, i) && t.cells == if e.SetCell? then u.cells[e.cell := Entry(i, e.group)] else u.cells
    ensures forall c ::
              if Stores(events + [e], i, c) then c in t.cells && t.cells[c].op == i else SameEntry(s, t, c)
  {
    forall c
      ensures if Stores(events + [e], i, c) then c in t.cells && t.cells[c].op == i else SameEntry(s, t, c)
    {
      OneMoreEvent(events, e, i, c);
    }
  }

  lemma StepAlone(s: State, u: State, l: Limits, events: seq<Event>, e: Event, i: OpId, op: Op)
    requires Valid(u) && Possible(u, l, e) && IsOwn(e, i)
    requires Alone(s, u, events, i) && Progress(u, events, i, op, Some(s.table))
    ensures Alone(s, After(u, l, e), events + [e], i)
  {
    OwnStep(u, l, events, e, i, op);
    CellsAlone(s, u, After(u, l, e), events, e, i);
  }

  /** A run of own steps, without its last one. */
  lemma LastOwnStep(u: State, l: Limits, events: seq<Event>, i: OpId)
    requires Valid(u) && RunFrom(u, l, events).Some? && AllOwn(events, i) && events != []
    ensures var n := |events| - 1;
            && RunFrom(u, l, events[..n]).Some? && AllOwn(events[..n], i) && IsOwn(events[n], i)
            && Valid(RunFrom(u, l, events[..n]).value) && Possible(RunFrom(u, l, events[..n]).value, l, events[n])
            && RunFrom(u, l, events).value == After(RunFrom(u, l, events[..n]).value, l, events[n])
            && events[..n] + [events[n]] == events
  {
    RunKeepsValid(u, l, events[..|events|-1]);
  }

  lemma {:induction false} OwnProgress(u: State, l: Limits, events: seq<Event>, i: OpId, op: Op, t: Table)
    requires Valid(u) && RunFrom(u, l, events).Some? && AllOwn(events, i)
    requires Progress(u, [], i, op, Some(t))
    ensures Progress(RunFrom(u, l, events).value, events, i, op, Some(t))
    decreases |events|
  {
    if events == [] {
    } else {
      var n := |events| - 1;
      LastOwnStep(u, l, events, i);
      OwnProgress(u, l, events[..n], i, op, t);
      StepProgress(RunFrom(u, l, events[..n]).value, l, events[..n], events[n], i, op, Some(t));
    }
  }

  lemma {:induction false} RunAlone(s: State, u: State, l: Limits, events: seq<Event>, i: OpId, op: Op)
    requires Valid(u) && RunFrom(u, l, events).Some? && AllOwn(events, i)
    requires Alone(s, u, [], i) && Progress(u, [], i, op, Some(s.table))
    ensures Alone(s, RunFrom(u, l, events).value, events, i)
    decreases |events|
  {
    if events == [] {
    } else {
      var n := |events| - 1;
      LastOwnStep(u, l, events, i);
      RunAlone(s, u, l, events[..n], i, op);
      OwnProgress(u, l, events[..n], i, op, s.table);
      StepAlone(s, RunFrom(u, l, events[..n]).value, l, events[..n], events[n], i, op);
    }
  }

  lemma FreeCanStart(s: Sched, keys: set<Key>)
    requires keys !! s.writeChains.Keys
    ensures s.Admit(keys).CanStart(|s.slots|)
  {
    assert Tails(s.writeChains, keys) == map[];
  }

  lemma SubmitAlone(s: State, l: Limits, w: Write)
    requires Valid(s) && Possible(s, l, Submit(w)) && KeysOf(w) !! s.sched.writeChains.Keys
    ensures var i, u := |s.ops|, After(s, l, Submit(w));
            && Possible(u, l, Begin(i)) && Valid(u) && Progress(u, [], i, Layout(w), None)
            && u.table == s.table && u.captured == s.captured && u.invalidations == s.invalidations
            && u.sightings == s.sightings && u.cells == s.cells
  {
    LayoutOf(w);
    FreeCanStart(s.sched, KeysOf(w));
    FencedWrites.StepKeepsValid(s, l, Submit(w));
    SubmitProgress(s, l, w);
  }

  lemma BeginMovesGroups(u: State, l: Limits, i: OpId)
    requires Possible(u, l, Begin(i))
    ensures forall g :: HasGroup(After(u, l, Begin(i)), i, g) ==> StageOf(After(u, l, Begin(i)), i, g).Writing?
  {
  }

  /** Events that store nothing tell nothing about the cells. */
  lemma ForgetFirst(t: State, events: seq<Event>, i: OpId, op: Op, table: Table)
    requires Progress(t, events, i, op, Some(table)) && forall e :: e in events ==> !e.SetCell?
    ensures Progress(t, [], i, op, Some(table))
  {
    forall g | 0 <= g < |op.groups|
      ensures GroupProgress(t, [], i, op, g, Some(table))
    {
      assert GroupProgress(t, events, i, op, g, Some(table));
    }
  }

  lemma BeginAlone(s: State, u: State, l: Limits, i: OpId)
    requires Possible(u, l, Begin(i))
    requires u.table == s.table && u.captured == s.captured && u.invalidations == s.invalidations
    requires u.sightings == s.sightings && u.cells == s.cells
    ensures Alone(s, After(u, l, Begin(i)), [], i) && IsRunning(After(u, l, Begin(i)), i)
  {
    BeginMovesGroups(u, l, i);
  }

  lemma BeginProgress(u: State, l: Limits, i: OpId, op: Op)
    requires Valid(u) && Possible(u, l, Begin(i)) && Progress(u, [], i, op, None)
    ensures Progress(After(u, l, Begin(i)), [], i, op, Some(u.table))
  {
    StepProgress(u, l, [], Begin(i), i, op, None);
    ForgetFirst(After(u, l, Begin(i)), [] + [Begin(i)], i, op, u.table);
  }

  /** What a write leaves when nothing but it happened: every cell of its layers and of its keys with a current fence
      holds its entry, which stands, and every other cell is as it was. */
  ghost predicate WroteAll(s: State, t: State, w: Write) {
    && |s.ops| < |t.sched.slots| && t.sched.slots[|s.ops|].phase == Settled
    && t.table == s.table && t.invalidations == s.invalidations && t.sightings == s.sightings
    && forall c :: if Wants(w, s.table, c) then c in t.cells && t.cells[c].op == |s.ops| && Stands(t, c)
                   else SameEntry(s, t, c)
  }

  lemma AloneWroteAll(s: State, t: State, events: seq<Event>, w: Write)
    requires Valid(t) && Alone(s, t, events, |s.ops|) && Progress(t, events, |s.ops|, Layout(w), Some(s.table))
    requires |s.ops| < |t.sched.slots| && t.sched.slots[|s.ops|].phase == Settled
    ensures WroteAll(s, t, w)
  {
    var i := |s.ops|;
    forall g | 0 <= g < |t.ops[i].groups|
      ensures Finished(t.ops[i].groups[g]) && t.ops[i].groups[g].stage.stale == {}
      ensures t.ops[i].groups[g].stage.active == FencedWrites.ActiveKeys(s.table, Layout(w))
    {
      assert GroupFits(t, i, g) && GroupProgress(t, events, i, Layout(w), g, Some(s.table));
    }
    FinishedStores(t, events, i, w, s.table);
    LayoutOf(w);
    forall c | Wants(w, s.table, c)
      ensures Stands(t, c)
    {
      assert Stores(events, i, c);
      assert c.key in FencedWrites.ActiveKeys(s.table, Layout(w));
    }
  }

  /** Every write runs through: from any valid state in which its keys are free and the limits leave room, its own steps
      alone bring it to an end at which it has written all that it wants, whatever number of keys, layers and outdated
      fences it has. */
  lemma WriteRunsThrough(s: State, l: Limits, w: Write) returns (events: seq<Event>)
    requires Valid(s) && KeysOf(w) != {} && (w.Fenced? ==> w.writes <= w.cleans)
    requires forall k :: k in KeysOf(w) ==> CaptureOf(w, k) in s.captured && CaptureOf(w, k).key == k
    requires KeysOf(w) !! s.sched.writeChains.Keys && s.sched.Check(l, KeysOf(w)).None?
    ensures RunFrom(s, l, events).Some? && WroteAll(s, RunFrom(s, l, events).value, w)
  {
    var i := |s.ops|;
    LayoutOf(w);
    assert Possible(s, l, Submit(w));
    var u := After(s, l, Submit(w));
    SubmitAlone(s, l, w);
    BeginAlone(s, u, l, i);
    BeginProgress(u, l, i, Layout(w));
    FencedWrites.StepKeepsValid(u, l, Begin(i));
    var v := After(u, l, Begin(i));
    var own := RunningCanEnd(v, l, i);
    RunAlone(s, v, l, own, i, Layout(w));
    OwnProgress(v, l, own, i, Layout(w), s.table);
    RunKeepsValid(v, l, own);
    AloneWroteAll(s, RunFrom(v, l, own).value, own, w);
    StepFirst(u, l, Begin(i), own);
    StepFirst(s, l, Submit(w), [Begin(i)] + own);
    events := [Submit(w)] + ([Begin(i)] + own);
  }
}
