/** The lease of distributed single-flight (src/singleflight/RedisSingleFlightCoordinator.ts) and its waiter
    (src/internal/CacheStackReader.ts:418-475). */
module SingleFlight {
  import opened OrderedMap

  // Redis executes one command at a time; a command may be executed after its caller stopped waiting for it.

  datatype LockKey = LockKey(name: string)
  /** `randomUUID()`: no two executions draw the same. */
  datatype Token = Token(id: nat)
  datatype Lock = Lock(token: Token, expiresAt: int)

  datatype Phase = Acquiring | Working | Releasing | Waiting | Over

  /** One call of `execute`.  `won` is set when the `SET` took effect, whether or not the caller learnt of it;
      `turn` numbers the successful `SET`s; `leaseUntil` is the last expiry this execution gave its lock. */
  datatype Execution = Execution(key: LockKey, leaseMs: nat, phase: Phase, asked: bool, won: bool, worked: bool,
                                 released: bool, turn: nat, acquiredAt: int, leaseUntil: int)

  datatype State = State(now: int, turns: nat, locks: map<LockKey, Lock>, runs: map<Token, Execution>)
  {
    predicate Live(k: LockKey) {
      k in locks && now < locks[k].expiresAt
    }

    /** `redis.call("get", KEYS[1]) == ARGV[1]`. */
    predicate Owns(x: Token)
      requires x in runs
    {
      Live(runs[x].key) && locks[runs[x].key].token == x
    }

    function Put(x: Token, r: Execution): State {
      this.(runs := runs[x := r])
    }
  }

  datatype Event =
    | Call(x: Token, key: LockKey, leaseMs: nat)
    | Set(x: Token)
    | Reply(x: Token)
    | GiveUp(x: Token)
    | Renew(x: Token)
    | Finish(x: Token)
    | Delete(x: Token)
    | Return(x: Token)
    | Leave(x: Token)
    | Tick(now: int)

  predicate Possible(s: State, e: Event) {
    match e
    case Call(x, _, _) => x !in s.runs
    case Set(x) => x in s.runs && !s.runs[x].asked
    case Reply(x) => x in s.runs && s.runs[x].phase == Acquiring && s.runs[x].asked
    case GiveUp(x) => x in s.runs && s.runs[x].phase == Acquiring
    case Renew(x) => x in s.runs && s.runs[x].worked
    case Finish(x) => x in s.runs && s.runs[x].phase == Working
    case Delete(x) =>
      && x in s.runs && s.runs[x].worked && !s.runs[x].released
      && (s.runs[x].phase == Releasing || s.runs[x].phase == Over)
    case Return(x) => x in s.runs && s.runs[x].phase == Releasing
    case Leave(x) => x in s.runs && s.runs[x].phase == Waiting
    case Tick(now) => now >= s.now
  }

  function After(s: State, e: Event): State
    requires Possible(s, e)
  {
    match e
    case Call(x, key, leaseMs) =>
      s.Put(x, Execution(key, leaseMs, Acquiring, false, false, false, false, 0, 0, 0))
    case Set(x) => AfterSet(s, x)
    case Reply(x) =>
      var r := s.runs[x];
      s.Put(x, if r.won then r.(phase := Working, worked := true)
               else if r.leaseMs == 0 then r.(phase := Over) else r.(phase := Waiting))
    case GiveUp(x) => s.Put(x, s.runs[x].(phase := Over))
    case Renew(x) =>
      if s.Owns(x) then
        var r := s.runs[x];
        s.Put(x, r.(leaseUntil := s.now + r.leaseMs)).(locks := s.locks[r.key := Lock(x, s.now + r.leaseMs)])
      else s
    case Finish(x) => s.Put(x, s.runs[x].(phase := Releasing))
    case Delete(x) =>
      var t := s.Put(x, s.runs[x].(released := true));
      if s.Owns(x) then t.(locks := s.locks - {s.runs[x].key}) else t
    case Return(x) => s.Put(x, s.runs[x].(phase := Over))
    case Leave(x) => s.Put(x, s.runs[x].(phase := Over))
    case Tick(now) => s.(now := now)
  }

  /** `SET key token PX leaseMs NX`; an expiry of zero is an error. */
  function AfterSet(s: State, x: Token): State
    requires x in s.runs
  {
    var r := s.runs[x];
    if s.Live(r.key) || r.leaseMs == 0 then s.Put(x, r.(asked := true))
    else
      s.Put(x, r.(asked := true, won := true, turn := s.turns, acquiredAt := s.now, leaseUntil := s.now + r.leaseMs))
       .(turns := s.turns + 1, locks := s.locks[r.key := Lock(x, s.now + r.leaseMs)])
  }

  // ---- what every step keeps ----

  /** A lock belongs to the execution whose token it holds. */
  ghost predicate Owned(s: State, k: LockKey) {
    k in s.locks ==>
      var x := s.locks[k].token;
      x in s.runs && s.runs[x].key == k && s.runs[x].won && s.runs[x].leaseUntil == s.locks[k].expiresAt
  }

  /** Until its release an execution holds its lock, or its lease has lapsed. */
  ghost predicate Holds(s: State, x: Token) {
    x in s.runs ==>
      var r := s.runs[x];
      && (r.worked || r.phase == Working || r.phase == Releasing ==> r.won)
      && (r.phase == Working ==> !r.released) && (r.phase == Acquiring ==> !r.worked)
      && (r.phase == Working || r.phase == Releasing || r.released ==> r.worked)
      && (r.won ==> r.asked && r.turn < s.turns && r.acquiredAt <= s.now)
      && (r.won && !r.released ==>
            (r.key in s.locks && s.locks[r.key] == Lock(x, r.leaseUntil)) || r.leaseUntil <= s.now)
  }

  /** If an execution acquired the lock while an earlier one had not released it, the earlier lease had lapsed. */
  ghost predicate Lapsed(s: State, x: Token, y: Token) {
    x in s.runs && y in s.runs && s.runs[x].won && s.runs[y].won && s.runs[x].key == s.runs[y].key
    && s.runs[x].turn < s.runs[y].turn && !s.runs[x].released ==>
      s.runs[x].leaseUntil <= s.runs[y].acquiredAt
  }

  ghost predicate Distinct(s: State, x: Token, y: Token) {
    x in s.runs && y in s.runs && x != y && s.runs[x].won && s.runs[y].won ==> s.runs[x].turn != s.runs[y].turn
  }

  ghost predicate Valid(s: State) {
    && (forall k :: Owned(s, k))
    && (forall x :: Holds(s, x))
    && (forall x, y :: Lapsed(s, x, y))
    && (forall x, y :: Distinct(s, x, y))
  }

  function Initial(now: int): State {
    State(now, 0, map[], map[])
  }

  ghost predicate Run(s: State, es: seq<Event>)
    decreases |es|
  {
    es == [] || (Possible(s, es[0]) && Run(After(s, es[0]), es[1..]))
  }

  ghost function RunFrom(s: State, es: seq<Event>): State
    requires Run(s, es)
    decreases |es|
  {
    if es == [] then s else RunFrom(After(s, es[0]), es[1..])
  }

  lemma SetKeepsValid(s: State, x: Token)
    requires Valid(s) && Possible(s, Set(x))
    ensures Valid(After(s, Set(x)))
  {
    var t := After(s, Set(x));
    assert Holds(s, x);
    forall k ensures Owned(t, k) { assert Owned(s, k); }
    forall y ensures Holds(t, y) { assert Holds(s, y); }
    forall y, z ensures Lapsed(t, y, z) { assert Lapsed(s, y, z) && Holds(s, y) && Holds(s, z); }
    forall y, z ensures Distinct(t, y, z) { assert Distinct(s, y, z) && Holds(s, y) && Holds(s, z); }
  }

  lemma RenewKeepsValid(s: State, x: Token)
    requires Valid(s) && Possible(s, Renew(x))
    ensures Valid(After(s, Renew(x)))
  {
    var t := After(s, Renew(x));
    forall k ensures Owned(t, k) { assert Owned(s, k) && Owned(s, s.runs[x].key); }
    forall y ensures Holds(t, y) { assert Holds(s, y) && Owned(s, s.runs[x].key); }
    forall y, z ensures Lapsed(t, y, z) { assert Lapsed(s, y, z) && Holds(s, z) && Owned(s, s.runs[x].key); }
    forall y, z ensures Distinct(t, y, z) { assert Distinct(s, y, z); }
  }

  lemma DeleteKeepsValid(s: State, x: Token)
    requires Valid(s) && Possible(s, Delete(x))
    ensures Valid(After(s, Delete(x)))
  {
    var t := After(s, Delete(x));
    forall k ensures Owned(t, k) { assert Owned(s, k); }
    forall y ensures Holds(t, y) { assert Holds(s, y); }
    forall y, z ensures Lapsed(t, y, z) { assert Lapsed(s, y, z); }
    forall y, z ensures Distinct(t, y, z) { assert Distinct(s, y, z); }
  }

  /** The steps that leave Redis alone. */
  lemma QuietStepKeepsValid(s: State, e: Event)
    requires Valid(s) && Possible(s, e) && !e.Set? && !e.Renew? && !e.Delete?
    ensures Valid(After(s, e))
  {
    var t := After(s, e);
    forall k ensures Owned(t, k) { assert Owned(s, k); QuietStepKeepsOwner(s, e, k); }
    forall y ensures Holds(t, y) { assert Holds(s, y); QuietStepKeepsHold(s, e, y); }
    forall y, z ensures Lapsed(t, y, z) && Distinct(t, y, z) {
      assert Lapsed(s, y, z) && Distinct(s, y, z);
      QuietStepKeepsPair(s, e, y, z);
    }
  }

  lemma QuietStepKeepsOwner(s: State, e: Event, k: LockKey)
    requires Possible(s, e) && !e.Set? && !e.Renew? && !e.Delete? && Owned(s, k)
    ensures Owned(After(s, e), k)
  {
  }

  lemma QuietStepKeepsHold(s: State, e: Event, y: Token)
    requires Possible(s, e) && !e.Set? && !e.Renew? && !e.Delete? && Holds(s, y)
    ensures Holds(After(s, e), y)
  {
  }

  lemma QuietStepKeepsPair(s: State, e: Event, y: Token, z: Token)
    requires Possible(s, e) && !e.Set? && !e.Renew? && !e.Delete? && Lapsed(s, y, z) && Distinct(s, y, z)
    ensures Lapsed(After(s, e), y, z) && Distinct(After(s, e), y, z)
  {
  }

  lemma StepKeepsValid(s: State, e: Event)
    requires Valid(s) && Possible(s, e)
    ensures Valid(After(s, e))
  {
    match e
    case Set(x) => SetKeepsValid(s, x);
    case Renew(x) => RenewKeepsValid(s, x);
    case Delete(x) => DeleteKeepsValid(s, x);
    case _ => QuietStepKeepsValid(s, e);
  }

  lemma {:induction false} RunIsValid(s: State, es: seq<Event>)
    requires Valid(s) && Run(s, es)
    ensures Valid(RunFrom(s, es))
    decreases |es|
  {
    if es == [] {
    } else {
      StepKeepsValid(s, es[0]);
      RunIsValid(After(s, es[0]), es[1..]);
    }
  }

  // ---- the protocol's promises ----

  /** A live lock is removed only by the release, and changed only by the renewal, of the execution that holds
      it; every other step of any execution leaves it as it is. */
  lemma OnlyTheOwnerTouchesALock(s: State, e: Event, k: LockKey)
    requires Valid(s) && Possible(s, e) && s.Live(k)
    ensures var t := After(s, e);
            var mine := s.locks[k].token;
            && (k !in t.locks <==> e == Delete(mine))
            && (k in t.locks && t.locks[k] != s.locks[k] ==> e == Renew(mine) && t.locks[k].token == mine)
  {
    assert Owned(s, k);
    assert Holds(s, s.locks[k].token);
  }

  /** In every run, if two executions for one key are at work at the same time, then the lease of the one that
      acquired first had lapsed, unreleased, by the time the other acquired the lock. */
  lemma OverlapMeansLapse(now: int, es: seq<Event>, x: Token, y: Token)
    requires Run(Initial(now), es)
    requires var s := RunFrom(Initial(now), es);
             x in s.runs && y in s.runs && x != y && s.runs[x].key == s.runs[y].key
             && s.runs[x].phase == Working && s.runs[y].phase == Working
    ensures var s := RunFrom(Initial(now), es);
            && s.runs[x].turn != s.runs[y].turn
            && (s.runs[x].turn < s.runs[y].turn ==> s.runs[x].leaseUntil <= s.runs[y].acquiredAt <= s.now)
            && (s.runs[y].turn < s.runs[x].turn ==> s.runs[y].leaseUntil <= s.runs[x].acquiredAt <= s.now)
  {
    var s := RunFrom(Initial(now), es);
    RunIsValid(Initial(now), es);
    assert Holds(s, x) && Holds(s, y) && Lapsed(s, x, y) && Lapsed(s, y, x) && Distinct(s, x, y);
  }

  /** So while no working execution's lease has lapsed, at most one execution per key is at work. */
  lemma ExclusiveWhileLeased(now: int, es: seq<Event>, x: Token, y: Token)
    requires Run(Initial(now), es)
    requires var s := RunFrom(Initial(now), es);
             x in s.runs && y in s.runs && s.runs[x].key == s.runs[y].key
             && s.runs[x].phase == Working && s.runs[y].phase == Working
             && s.now < s.runs[x].leaseUntil && s.now < s.runs[y].leaseUntil
    ensures x == y
  {
    if x != y {
      OverlapMeansLapse(now, es, x, y);
    }
  }

  /** The two can overlap: nothing stops a worker whose lease lapsed. */
  lemma OverlapCanHappen()
    ensures var k, x, y := LockKey("k"), Token(0), Token(1);
            var es := [Call(x, k, 10), Call(y, k, 10), Set(x), Reply(x), Tick(10), Set(y), Reply(y)];
            && Run(Initial(0), es)
            && var s := RunFrom(Initial(0), es);
               x in s.runs && y in s.runs && s.runs[x].phase == Working && s.runs[y].phase == Working
  {
    var k, x, y := LockKey("k"), Token(0), Token(1);
    var s1 := After(Initial(0), Call(x, k, 10));
    var s2 := After(s1, Call(y, k, 10));
    var s3 := After(s2, Set(x));
    var s4 := After(s3, Reply(x));
    var s5 := After(s4, Tick(10));
    var s6 := After(s5, Set(y));
    RunCons(s6, Reply(y), []);
    RunCons(s5, Set(y), [Reply(y)]);
    RunCons(s4, Tick(10), [Set(y), Reply(y)]);
    RunCons(s3, Reply(x), [Tick(10), Set(y), Reply(y)]);
    RunCons(s2, Set(x), [Reply(x), Tick(10), Set(y), Reply(y)]);
    RunCons(s1, Call(y, k, 10), [Set(x), Reply(x), Tick(10), Set(y), Reply(y)]);
    RunCons(Initial(0), Call(x, k, 10), [Call(y, k, 10), Set(x), Reply(x), Tick(10), Set(y), Reply(y)]);
  }

  /** When exactly: a new execution with a positive lease comes to work beside a worker of its key if and only if
      the key has no live lock; otherwise it becomes a waiter. */
  lemma SecondWorkerIff(s: State, x: Token, y: Token, leaseMs: nat)
    requires Valid(s) && x in s.runs && s.runs[x].phase == Working && y !in s.runs && leaseMs > 0
    ensures var k := s.runs[x].key;
            var es := [Call(y, k, leaseMs), Set(y), Reply(y)];
            && Run(s, es)
            && var t := RunFrom(s, es);
               && y in t.runs && t.runs[y].key == k
               && x in t.runs && t.runs[x] == s.runs[x]
               && (t.runs[y].phase == Working <==> !s.Live(k))
               && (t.runs[y].phase == Waiting <==> s.Live(k))
  {
    var k := s.runs[x].key;
    var s1 := After(s, Call(y, k, leaseMs));
    var s2 := After(s1, Set(y));
    RunCons(s2, Reply(y), []);
    RunCons(s1, Set(y), [Reply(y)]);
    RunCons(s, Call(y, k, leaseMs), [Set(y), Reply(y)]);
  }

  /** A worker can always finish and release: its lock, if it still has it, is then free, and no other is touched. */
  lemma WorkerCanRelease(s: State, x: Token)
    requires Valid(s) && x in s.runs && s.runs[x].phase == Working
    ensures var es := [Finish(x), Delete(x), Return(x)];
            && Run(s, es)
            && var t := RunFrom(s, es);
               && x in t.runs && t.runs[x].phase == Over && t.runs[x].released
               && t.locks == if s.Owns(x) then s.locks - {s.runs[x].key} else s.locks
  {
    assert Holds(s, x);
    var s1 := After(s, Finish(x));
    var s2 := After(s1, Delete(x));
    RunCons(s2, Return(x), []);
    RunCons(s1, Delete(x), [Return(x)]);
    RunCons(s, Finish(x), [Delete(x), Return(x)]);
  }

  lemma RunCons(s: State, e: Event, es: seq<Event>)
    requires Possible(s, e) && Run(After(s, e), es)
    ensures Run(s, [e] + es) && RunFrom(s, [e] + es) == RunFrom(After(s, e), es)
  {
    assert ([e] + es)[1..] == es;
  }

  // ---- lease renewal ----

  /** `startLeaseRenewal`: the interval of the renewal timer, if one is started. */
  function RenewInterval(given: Option<nat>, leaseMs: nat): (r: Option<nat>) {
    var interval := if given.Some? then given.value else if leaseMs / 2 > 100 then leaseMs / 2 else 100;
    if interval <= 0 || interval >= leaseMs then None else Some(interval)
  }

  /** A timer that fires on time renews a live lease before it lapses.  Without a given interval there is a
      timer exactly for leases of more than 100 ms. */
  lemma TimerOutrunsLease(s: State, x: Token, given: Option<nat>)
    requires Valid(s) && x in s.runs && s.runs[x].worked && s.Owns(x)
    ensures var interval := RenewInterval(given, s.runs[x].leaseMs);
            && (given.None? ==> (interval.Some? <==> s.runs[x].leaseMs > 100))
            && (given.None? && interval.Some? ==>
                  interval.value >= 100 && interval.value >= s.runs[x].leaseMs / 2
                  && (interval.value == 100 || interval.value == s.runs[x].leaseMs / 2))
            && (given.Some? ==> interval == if 0 < given.value < s.runs[x].leaseMs then given else None)
            && (interval.Some? ==>
                  var t := After(After(s, Renew(x)), Tick(s.now + interval.value));
                  t.Owns(x) && t.runs[x].leaseUntil > t.now)
  {
  }

  // ---- the waiter ----

  datatype Outcome = Hit | Fetched | TimedOut

  const BACKOFF_FACTOR: nat := 2
  const MAX_POLL_MS: nat := 1_000

  /** The world of one waiter: a clock that never goes back, layers that may or may not have a fresh value, and
      a coordinator.  `answers` and `grants` record what the layers and the coordinator said, `lookups` and
      `entries` how often they were asked. */
  class World {
    var clock: int
    ghost var lookups: nat
    ghost var answers: seq<bool>
    ghost var grants: seq<bool>
    ghost var entries: nat

    constructor (clock: int)
      ensures this.clock == clock && lookups == 0 && entries == 0 && answers == [] && grants == []
    {
      this.clock, lookups, entries, answers, grants := clock, 0, 0, [], [];
    }

    method Now() returns (t: int)
      modifies this`clock
      ensures t == clock >= old(clock)
    {
      t :| t >= clock;
      clock := t;
    }

    /** `readFromLayers` in mode fresh-only. */
    method ReadFresh() returns (found: bool)
      modifies this
      ensures clock >= old(clock) && lookups == old(lookups) + 1 && entries == old(entries)
      ensures answers == old(answers) + [found] && grants == old(grants)
    {
      found := *;
      lookups, answers := lookups + 1, answers + [found];
      var t := Now();
    }

    method Sleep(delayMs: nat)
      modifies this`clock
      ensures clock >= old(clock) + delayMs
    {
      var t :| t >= clock + delayMs;
      clock := t;
    }

    /** Whether `execute` runs the worker, or the waiter. */
    method Enter() returns (acquired: bool)
      modifies this
      ensures clock >= old(clock) && lookups == old(lookups) && answers == old(answers)
      ensures entries == old(entries) + 1 && grants == old(grants) + [acquired]
    {
      acquired := *;
      entries, grants := entries + 1, grants + [acquired];
      var t := Now();
    }
  }

  /** `jitterSingleFlightPoll`: some delay of at least a millisecond. */
  method Jitter(delayMs: nat) returns (d: nat)
    ensures d >= 1
  {
    d :| d >= 1;
  }

  /** `waitForFreshValue`.  It ends by returning a value or throwing, enters the coordinator at most once more,
      returns the first fresh value it finds and gives up only without one,
      and reads the layers at most once per millisecond up to its deadline, which is `timeoutMs` away if none was
      given; a waiter that re-entered and lost again does not read at all. */
  method WaitForFreshValue(world: World, timeoutMs: nat, pollIntervalMs: nat, coordinator: bool, deadline: Option<int>,
                           coordinatorRetries: nat)
      returns (outcome: Outcome)
    modifies world
    ensures world.clock >= old(world.clock)
    ensures world.entries <= old(world.entries) + if coordinator && coordinatorRetries == 0 then 1 else 0
    ensures outcome.Hit? && deadline.None? ==> world.entries == old(world.entries) && world.lookups > old(world.lookups)
    ensures world.entries == old(world.entries) + |world.grants| - |old(world.grants)|
    ensures old(world.grants) <= world.grants
    ensures !outcome.Hit? && coordinator && coordinatorRetries == 0 ==> |world.grants| == |old(world.grants)| + 1
    ensures outcome.Fetched? <==>
            |world.grants| == |old(world.grants)| + 1 && world.grants[|world.grants|-1]
    ensures outcome.TimedOut? ==> (deadline.Some? ==> world.clock >= deadline.value)
                                  && (deadline.None? ==> world.clock >= old(world.clock) + timeoutMs)
    ensures deadline.Some? && deadline.value <= old(world.clock) ==>
              world.lookups == old(world.lookups) && !outcome.Hit?
    ensures deadline.Some? && old(world.clock) < deadline.value ==>
              world.lookups <= old(world.lookups) + (deadline.value - old(world.clock))
    ensures deadline.None? ==> world.lookups <= old(world.lookups) + timeoutMs
    ensures old(world.answers) <= world.answers
    ensures |world.answers| - |old(world.answers)| == world.lookups - old(world.lookups)
    ensures outcome.Hit? <==> exists n :: |old(world.answers)| <= n < |world.answers| && world.answers[n]
    ensures forall n :: |old(world.answers)| <= n < |world.answers| - 1 ==> !world.answers[n]
    decreases if coordinatorRetries == 0 then 1 else 0
  {
    var now := world.Now();
    var operationDeadline := if deadline.Some? then deadline.value else now + timeoutMs;
    ghost var start := if deadline.Some? then old(world.clock) else now;
    var nextPollMs: nat := pollIntervalMs;
    now := world.Now();
    while now < operationDeadline
      invariant now == world.clock >= start >= old(world.clock)
      invariant world.entries == old(world.entries) && world.grants == old(world.grants)
      invariant operationDeadline <= start ==> world.lookups == old(world.lookups)
      invariant start < operationDeadline ==>
                  world.lookups <= old(world.lookups) + if now < operationDeadline then now - start
                                                    else operationDeadline - start
      invariant world.lookups >= old(world.lookups)
      invariant old(world.answers) <= world.answers
      invariant |world.answers| - |old(world.answers)| == world.lookups - old(world.lookups)
      invariant forall n :: |old(world.answers)| <= n < |world.answers| ==> !world.answers[n]
      decreases operationDeadline - now
    {
      var hit := world.ReadFresh();
      if hit {
        assert world.answers[|world.answers|-1];
        return Hit;
      }
      now := world.Now();
      if operationDeadline - now <= 0 {
        break;
      }
      var delayMs := Jitter(nextPollMs);
      world.Sleep(if delayMs < operationDeadline - now then delayMs else operationDeadline - now);
      nextPollMs := Min(BACKOFF_FACTOR * nextPollMs, Min(MAX_POLL_MS, timeoutMs));
      now := world.Now();
    }
    if !coordinator || coordinatorRetries >= 1 {
      return TimedOut;
    }
    var acquired := world.Enter();
    if acquired {
      return Fetched;
    }
    outcome := WaitForFreshValue(world, timeoutMs, pollIntervalMs, coordinator, Some(operationDeadline),
                                 coordinatorRetries + 1);
  }

  function Min(a: nat, b: nat): nat {
    if a < b then a else b
  }
}
