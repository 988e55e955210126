/** The fetch rate limiter (src/internal/FetchRateLimiter.ts). */
module RateLimiter {
  import opened OrderedMap

  // A zero option is an absent one, as in the source's truth tests.  Every method of the limiter is one synchronous
  // step; the clock may advance at each reading.

  datatype BucketKey = BucketKey(name: string)

  datatype Overflow = RejectItem | Bypass

  datatype Options = Options(maxConcurrent: nat, intervalMs: nat, maxPerInterval: nat, overflow: Overflow)

  /** A queued task with the options it came with; the number only tells tasks apart. */
  datatype Item = Item(task: nat, options: Options)

  const MAX_BUCKETS: nat := 10_000
  const MAX_QUEUE_PER_BUCKET: nat := 10_000

  predicate RateLimited(o: Options) {
    o.intervalMs > 0 && o.maxPerInterval > 0
  }

  /** `normalize` keeps the options only if they limit something. */
  predicate Limits(o: Options) {
    o.maxConcurrent > 0 || RateLimited(o)
  }

  datatype Outcome = Queued | Direct | Bypassed | Overflowed | NoBucket | Disposed

  // ---- start histories ----

  /** Among any maxPerInterval + 1 starts in a row, the last is at least an interval after the first. */
  ghost predicate Spaced(starts: seq<int>, o: Options) {
    forall i, j :: 0 <= i && j == i + o.maxPerInterval && j < |starts| ==> starts[j] - starts[i] >= o.intervalMs
  }

  ghost predicate InOrder(starts: seq<int>) {
    forall i, j :: 0 <= i <= j < |starts| ==> starts[i] <= starts[j]
  }

  /** `kept` is the end of the history, and everything before it is at least an interval old. */
  ghost predicate Remembers(kept: seq<int>, starts: seq<int>, o: Options, clock: int) {
    && |kept| <= |starts| && kept == starts[|starts|-|kept|..]
    && forall i :: 0 <= i < |starts| - |kept| ==> clock - starts[i] >= o.intervalMs
  }

  ghost predicate Recorded(starts: seq<int>, kept: seq<int>, o: Options, clock: int) {
    && (if RateLimited(o) then Spaced(starts, o) else starts == [])
    && InOrder(starts) && (forall i :: 0 <= i < |starts| ==> 0 < starts[i] <= clock)
    && Remembers(kept, starts, o, clock)
  }

  /** The starts of a history that fall in the half-open window from `from`. */
  ghost function InWindow(starts: seq<int>, from: int, length: nat): set<int> {
    set i | 0 <= i < |starts| && from <= starts[i] < from + length
  }

  /** The first start that is not before `from`, or the number of starts. */
  ghost function FirstFrom(starts: seq<int>, from: int): (n: nat)
    ensures n <= |starts| && (n < |starts| ==> starts[n] >= from)
    ensures forall i :: 0 <= i < n ==> starts[i] < from
    decreases |starts|
  {
    if starts == [] then 0
    else
      var n := FirstFrom(starts[..|starts|-1], from);
      if n < |starts| - 1 then n else if starts[|starts|-1] >= from then |starts| - 1 else |starts|
  }

  /** The rate bound on a spaced history: every half-open window of the interval's length, wherever it
      begins, contains at most maxPerInterval starts. */
  lemma WindowBound(starts: seq<int>, o: Options, from: int)
    requires Spaced(starts, o) && InOrder(starts) && RateLimited(o)
    ensures |InWindow(starts, from, o.intervalMs)| <= o.maxPerInterval
  {
    var low := FirstFrom(starts, from);
    var range := Range(low, o.maxPerInterval);
    RangeSize(low, o.maxPerInterval);
    forall i | i in InWindow(starts, from, o.intervalMs)
      ensures i in range
    {
      if low + o.maxPerInterval <= i {
        FarApart(starts, o, low, i);
      }
    }
    CardinalityOfSubset(InWindow(starts, from, o.intervalMs), range);
  }

  lemma FarApart(starts: seq<int>, o: Options, i: nat, j: nat)
    requires Spaced(starts, o) && InOrder(starts) && i + o.maxPerInterval <= j < |starts|
    ensures starts[j] - starts[i] >= o.intervalMs
  {
    assert starts[i + o.maxPerInterval] - starts[i] >= o.intervalMs;
  }

  ghost function Range(low: nat, n: nat): (r: set<int>)
    ensures forall i :: i in r <==> low <= i < low + n
  {
    if n == 0 then {} else Range(low, n - 1) + {low + n - 1}
  }

  lemma {:induction false} RangeSize(low: nat, n: nat)
    ensures |Range(low, n)| == n
  {
    if n == 0 {
    } else {
      RangeSize(low, n - 1);
    }
  }

  /** A start admitted when fewer than maxPerInterval are remembered keeps the history spaced. */
  lemma StartKeepsSpacing(kept: seq<int>, starts: seq<int>, o: Options, now: int)
    requires RateLimited(o) && Recorded(starts, kept, o, now) && now > 0
    requires |kept| < o.maxPerInterval
    ensures Recorded(starts + [now], kept + [now], o, now)
  {
    var n := |starts|;
    assert (starts + [now])[n - |kept|..] == starts[n - |kept|..] + [now];
  }

  // ---- the state ----

  type Lines = map<BucketKey, seq<Item>>

  /** A bucket object; its timer forgets it once it is idle. */
  datatype Bucket = Bucket(key: BucketKey, active: nat, startedAt: seq<int>, cleanupArmed: bool)

  ghost function PolicyOf(policies: imap<BucketKey, Options>, k: BucketKey): Options {
    if k in policies then policies[k] else Options(0, 0, 0, RejectItem)
  }

  ghost predicate AllUse(items: seq<Item>, o: Options) {
    forall i :: 0 <= i < |items| ==> items[i].options == o
  }

  ghost function Of<T>(m: map<BucketKey, seq<T>>, k: BucketKey): seq<T> {
    if k in m then m[k] else []
  }

  ghost function Number(m: map<BucketKey, nat>, k: BucketKey): nat {
    if k in m then m[k] else 0
  }

  ghost function OneMore(m: map<BucketKey, nat>, k: BucketKey): map<BucketKey, nat> {
    m[k := Number(m, k) + 1]
  }

  /** What the limiter holds: every bucket ever made, which of them each key leads to, and the queues; beside
      these the bucket of every running task, all start times, the fate of every accepted item, and the number of
      finished tasks. */
  datatype State = State(
    policies: imap<BucketKey, Options>,
    made: seq<Bucket>, buckets: map<BucketKey, nat>, queues: Lines, clock: int,
    running: multiset<nat>, starts: map<BucketKey, seq<int>>, accepted: Lines, started: Lines, rejected: Lines,
    finished: map<BucketKey, nat>)
  {
    ghost function Policy(k: BucketKey): Options {
      PolicyOf(policies, k)
    }

    ghost function Remembered(k: BucketKey): seq<int> {
      if k in buckets && buckets[k] < |made| then made[buckets[k]].startedAt else []
    }

    /** The counter is the number of running tasks, within the cap.  A bucket in use or with an armed timer is
        the one its key leads to, so neither a finished task nor a timer acts on a forgotten bucket. */
    ghost predicate Anchored(id: nat) {
      id < |made| ==>
        var b := made[id];
        && b.active == running[id]
        && (Policy(b.key).maxConcurrent > 0 ==> b.active <= Policy(b.key).maxConcurrent)
        && (b.active > 0 || b.cleanupArmed || b.startedAt != [] ==> b.key in buckets && buckets[b.key] == id)
        && (b.cleanupArmed ==> b.active == 0 && (b.startedAt != [] || b.key in queues))
    }

    ghost predicate Keyed(k: BucketKey) {
      && (k in buckets ==> buckets[k] < |made| && made[buckets[k]].key == k)
      && (k in queues ==> queues[k] != [] && k in buckets && Limits(Policy(k)) && AllUse(queues[k], Policy(k)))
    }

    /** The starts of a key are spaced, and its bucket, if it has one, remembers enough of them. */
    ghost predicate Historic(k: BucketKey) {
      Recorded(Of(starts, k), Remembered(k), Policy(k), clock)
    }

    /** The running tasks that the bucket of a key counts. */
    ghost function Counted(k: BucketKey): nat {
      if k in buckets then running[buckets[k]] else 0
    }

    /** Every started task of a key has finished or is counted. */
    ghost predicate Accounted(k: BucketKey) {
      |Of(started, k)| == Number(finished, k) + Counted(k)
    }

    ghost predicate Good() {
      && clock > 0 && rejected == map[]
      && (forall k :: Accounted(k))
      && (forall id :: Anchored(id))
      && (forall id :: id in running ==> id < |made|)
      && (forall k :: Keyed(k))
      && (forall k :: Historic(k))
      && AllTimed(policies, starts, started)
      && AllInLine(accepted, started, rejected, queues)
    }

    ghost function Tick(now: int): State {
      this.(clock := now)
    }

    ghost function Add(k: BucketKey): State {
      this.(made := made + [Bucket(k, 0, [], false)], buckets := buckets[k := |made|])
    }

    ghost function Drop(k: BucketKey): State {
      this.(buckets := buckets - {k})
    }

    ghost function Enqueue(k: BucketKey, item: Item): State {
      this.(queues := queues[k := Of(queues, k) + [item]], accepted := accepted[k := Of(accepted, k) + [item]])
    }

    /** Changes a bucket in place. */
    ghost function Put(id: nat, b: Bucket): State
      requires id < |made|
    {
      this.(made := made[id := b])
    }

    /** Forgets the starts of a bucket that are at least an interval old. */
    ghost function Forget(id: nat, now: int): State
      requires id < |made|
    {
      var b := made[id];
      Put(id, b.(startedAt := Recent(b.startedAt, now, Policy(b.key).intervalMs)))
    }

    ghost predicate CanStart(k: BucketKey) {
      && k in queues && k in buckets && buckets[k] < |made| && queues[k] != []
      && (Policy(k).maxConcurrent > 0 ==> made[buckets[k]].active < Policy(k).maxConcurrent)
      && (RateLimited(Policy(k)) ==> |Remembered(k)| < Policy(k).maxPerInterval)
    }

    /** The head of the queue starts. */
    ghost function Start(k: BucketKey, now: int): State
      requires CanStart(k)
    {
      this.(made := made[buckets[k] := Busier(made[buckets[k]], Policy(k), now)],
            queues := Shorter(queues, k),
            running := running + multiset{buckets[k]},
            starts := if RateLimited(Policy(k)) then starts[k := Of(starts, k) + [now]] else starts,
            started := started[k := Of(started, k) + [queues[k][0]]])
    }

    ghost function Finish(id: nat): State
      requires id in running && id < |made| && made[id].active > 0
    {
      this.(made := made[id := made[id].(active := made[id].active - 1)], running := running - multiset{id},
            finished := OneMore(finished, made[id].key))
    }
  }

  /** The bucket when one more of its tasks starts now. */
  function Busier(b: Bucket, o: Options, now: int): Bucket {
    Bucket(b.key, b.active + 1, if RateLimited(o) then b.startedAt + [now] else b.startedAt, false)
  }

  /** The queues without the head of one; an empty queue is deleted. */
  function Shorter(queues: Lines, k: BucketKey): Lines
    requires k in queues && queues[k] != []
  {
    if |queues[k]| == 1 then queues - {k} else queues[k := queues[k][1..]]
  }

  /** Items start in the order they were accepted; what is neither started nor rejected is queued. */
  ghost predicate InLine(accepted: Lines, started: Lines, rejected: Lines, queues: Lines, k: BucketKey) {
    Of(accepted, k) == Of(started, k) + Of(rejected, k) + Of(queues, k)
  }

  ghost predicate AllInLine(accepted: Lines, started: Lines, rejected: Lines, queues: Lines) {
    forall k :: InLine(accepted, started, rejected, queues, k)
  }

  /** Every start of a rate-limited key has its time, and every time its start. */
  ghost predicate Timed(policies: imap<BucketKey, Options>, starts: map<BucketKey, seq<int>>,
                        started: Lines, k: BucketKey) {
    RateLimited(PolicyOf(policies, k)) ==> |Of(starts, k)| == |Of(started, k)|
  }

  ghost predicate AllTimed(policies: imap<BucketKey, Options>, starts: map<BucketKey, seq<int>>, started: Lines) {
    forall k :: Timed(policies, starts, started, k)
  }

  /** Times are only added, at the end. */
  ghost predicate Extends(starts: map<BucketKey, seq<int>>, starts': map<BucketKey, seq<int>>) {
    forall k :: Of(starts, k) <= Of(starts', k)
  }

  lemma TickKeepsGood(s: State, now: int)
    requires s.Good() && now >= s.clock
    ensures s.Tick(now).Good()
  {
    var t := s.Tick(now);
    forall id ensures t.Anchored(id) { assert s.Anchored(id); }
    forall k ensures t.Keyed(k) && t.Historic(k) { TickKeepsHistory(s, now, k); }
    forall k ensures t.Accounted(k) { assert s.Accounted(k); }
  }

  lemma TickKeepsHistory(s: State, now: int, k: BucketKey)
    requires s.Good() && now >= s.clock
    ensures s.Tick(now).Keyed(k) && s.Tick(now).Historic(k)
  {
    assert s.Keyed(k) && s.Historic(k);
    RecordedLater(Of(s.starts, k), s.Remembered(k), s.Policy(k), s.clock, now);
  }

  lemma RecordedLater(starts: seq<int>, kept: seq<int>, o: Options, clock: int, later: int)
    requires Recorded(starts, kept, o, clock) && clock <= later
    ensures Recorded(starts, kept, o, later)
  {
  }

  lemma AddKeepsGood(s: State, k: BucketKey)
    requires s.Good() && k !in s.buckets
    ensures s.Add(k).Good()
  {
    var t := s.Add(k);
    forall id ensures t.Anchored(id) { AddKeepsAnchors(s, k, id); }
    forall j ensures t.Keyed(j) && t.Historic(j) {
      assert s.Keyed(j) && s.Historic(j);
      AddKeepsHistory(s, k, j);
    }
    forall j ensures t.Accounted(j) { assert s.Accounted(j) && s.running[|s.made|] == 0; }
  }

  lemma AddKeepsAnchors(s: State, k: BucketKey, id: nat)
    requires s.Good() && k !in s.buckets
    ensures s.Add(k).Anchored(id)
  {
    assert s.running[|s.made|] == 0;
    assert s.Anchored(id);
  }

  lemma AddKeepsHistory(s: State, k: BucketKey, j: BucketKey)
    requires k !in s.buckets && s.Keyed(j)
    ensures s.Add(k).Keyed(j)
    ensures s.Add(k).Historic(j) == s.Historic(j)
  {
    assert s.Add(k).Remembered(j) == s.Remembered(j);
  }

  lemma DropKeepsGood(s: State, k: BucketKey)
    requires s.Good() && k in s.buckets && k !in s.queues
    requires s.buckets[k] < |s.made| && s.made[s.buckets[k]].active == 0 && s.made[s.buckets[k]].startedAt == []
    ensures s.Drop(k).Good()
  {
    var t := s.Drop(k);
    assert s.Keyed(k);
    forall id ensures t.Anchored(id) { assert s.Anchored(id); }
    forall j ensures t.Keyed(j) { assert s.Keyed(j); }
    forall j ensures t.Historic(j) { assert s.Keyed(j) && s.Historic(j); }
    forall j ensures t.Accounted(j) { assert s.Accounted(j) && s.Anchored(s.buckets[k]); }
  }

  lemma EnqueueKeepsGood(s: State, k: BucketKey, item: Item)
    requires s.Good() && k in s.buckets && Limits(s.Policy(k)) && item.options == s.Policy(k)
    ensures s.Enqueue(k, item).Good()
  {
    var t := s.Enqueue(k, item);
    forall id ensures t.Anchored(id) { assert s.Anchored(id); }
    forall j ensures t.Keyed(j) { assert s.Keyed(j); }
    forall j ensures t.Historic(j) && t.Accounted(j) { assert s.Historic(j) && s.Accounted(j); }
    forall j ensures InLine(t.accepted, t.started, t.rejected, t.queues, j) {
      assert InLine(s.accepted, s.started, s.rejected, s.queues, j);
    }
  }

  /** What is left of a list of starts once those at its front that are an interval old are gone. */
  ghost function Recent(startedAt: seq<int>, now: int, intervalMs: nat): (kept: seq<int>)
    ensures |kept| <= |startedAt| && (kept != [] ==> now - kept[0] < intervalMs)
  {
    if startedAt == [] || now - startedAt[0] < intervalMs then startedAt else Recent(startedAt[1..], now, intervalMs)
  }

  lemma {:induction false} ForgettingIsSafe(kept: seq<int>, starts: seq<int>, o: Options, clock: int, now: int)
    requires Recorded(starts, kept, o, clock) && now <= clock
    ensures Recorded(starts, Recent(kept, now, o.intervalMs), o, clock)
    decreases |kept|
  {
    if kept != [] && now - kept[0] >= o.intervalMs {
      assert starts[|starts|-|kept|] == kept[0];
      assert kept[1..] == starts[|starts|-|kept[1..]|..];
      ForgettingIsSafe(kept[1..], starts, o, clock, now);
    }
  }

  /** A bucket may lose old starts, and its timer may be armed or disarmed. */
  lemma PutKeepsGood(s: State, id: nat, b: Bucket)
    requires s.Good() && id < |s.made| && b.key == s.made[id].key && b.active == s.made[id].active
    requires b.startedAt == s.made[id].startedAt || Recorded(Of(s.starts, b.key), b.startedAt, s.Policy(b.key), s.clock)
    requires b.startedAt != [] ==> s.made[id].startedAt != []
    requires b.cleanupArmed ==> b.active == 0 && (b.startedAt != [] || b.key in s.queues)
    requires b.cleanupArmed ==> b.key in s.buckets && s.buckets[b.key] == id
    ensures s.Put(id, b).Good()
  {
    var t := s.Put(id, b);
    forall j ensures t.Anchored(j) { assert s.Anchored(id) && s.Anchored(j); }
    forall k ensures t.Keyed(k) && t.Accounted(k) { assert s.Keyed(k) && s.Accounted(k); }
    forall k ensures t.Historic(k) {
      assert s.Keyed(k) && s.Historic(k);
      assert t.Remembered(k) == if k in s.buckets && s.buckets[k] == id then b.startedAt else s.Remembered(k);
    }
  }

  lemma ForgetKeepsGood(s: State, id: nat, now: int)
    requires s.Good() && id < |s.made| && now <= s.clock
    requires s.made[id].cleanupArmed ==> s.made[id].key in s.queues
    ensures s.Forget(id, now).Good()
  {
    var b := s.made[id];
    var o := s.Policy(b.key);
    assert s.Anchored(id) && s.Historic(b.key);
    if b.startedAt != [] {
      ForgettingIsSafe(b.startedAt, Of(s.starts, b.key), o, s.clock, now);
    }
    PutKeepsGood(s, id, b.(startedAt := Recent(b.startedAt, now, o.intervalMs)));
  }

  lemma StartKeepsAnchors(s: State, k: BucketKey, now: int, id: nat)
    requires s.Good() && s.CanStart(k)
    ensures s.Start(k, now).Anchored(id)
  {
    assert s.Anchored(id) && s.Keyed(k);
  }

  lemma StartKeepsKeys(s: State, k: BucketKey, now: int, j: BucketKey)
    requires s.Good() && s.CanStart(k)
    ensures s.Start(k, now).Keyed(j)
  {
    assert s.Keyed(j) && s.Keyed(k);
  }

  lemma StartKeepsLine(s: State, k: BucketKey, now: int, j: BucketKey)
    requires s.Good() && s.CanStart(k)
    ensures InLine(s.accepted, s.Start(k, now).started, s.rejected, s.Start(k, now).queues, j)
  {
    assert InLine(s.accepted, s.started, s.rejected, s.queues, j);
    assert s.queues[k] == [s.queues[k][0]] + s.queues[k][1..];
  }

  lemma StartRemembers(s: State, k: BucketKey, now: int, j: BucketKey)
    requires s.Good() && s.CanStart(k)
    ensures s.Start(k, now).Remembered(j) ==
            if j == k && RateLimited(s.Policy(k)) then s.Remembered(k) + [now] else s.Remembered(j)
  {
    assert s.Keyed(j) && s.Keyed(k);
  }

  lemma StartKeepsHistory(s: State, k: BucketKey, now: int, j: BucketKey)
    requires s.Good() && s.CanStart(k) && now == s.clock
    ensures s.Start(k, now).Historic(j)
  {
    assert s.Historic(j);
    StartRemembers(s, k, now, j);
    if j == k && RateLimited(s.Policy(k)) {
      StartKeepsSpacing(s.Remembered(k), Of(s.starts, k), s.Policy(k), now);
    }
  }

  lemma StartKeepsTimes(s: State, k: BucketKey, now: int)
    requires s.Good() && s.CanStart(k)
    ensures AllTimed(s.policies, s.Start(k, now).starts, s.Start(k, now).started)
    ensures Extends(s.starts, s.Start(k, now).starts)
  {
    var t := s.Start(k, now);
    forall j
      ensures Timed(s.policies, t.starts, t.started, j)
    {
      assert Timed(s.policies, s.starts, s.started, j);
    }
  }

  lemma StartKeepsGood(s: State, k: BucketKey, now: int)
    requires s.Good() && s.CanStart(k) && now == s.clock
    ensures s.Start(k, now).Good()
  {
    forall id ensures s.Start(k, now).Anchored(id) { StartKeepsAnchors(s, k, now, id); }
    var t := s.Start(k, now);
    forall j ensures t.Keyed(j) && InLine(t.accepted, t.started, t.rejected, t.queues, j) {
      StartKeepsKeys(s, k, now, j);
      StartKeepsLine(s, k, now, j);
    }
    forall j ensures s.Start(k, now).Historic(j) { StartKeepsHistory(s, k, now, j); }
    StartKeepsTimes(s, k, now);
    StartKeepsAccounts(s, k, now);
    assert s.Keyed(k);
  }

  lemma StartKeepsAccounts(s: State, k: BucketKey, now: int)
    requires s.Good() && s.CanStart(k)
    ensures forall j :: s.Start(k, now).Accounted(j)
  {
    forall j ensures s.Start(k, now).Accounted(j) {
      assert s.Accounted(j) && s.Keyed(j) && s.Keyed(k);
    }
  }

  lemma FinishKeepsGood(s: State, id: nat)
    requires s.Good() && id in s.running
    ensures id < |s.made| && s.made[id].active > 0 && s.Finish(id).Good()
  {
    assert s.Anchored(id);
    var t := s.Finish(id);
    forall j ensures t.Anchored(j) { assert s.Anchored(j); }
    forall k ensures t.Keyed(k) { assert s.Keyed(k); }
    forall k ensures t.Historic(k) { assert s.Keyed(k) && s.Historic(k); }
    forall k ensures t.Accounted(k) { assert s.Accounted(k) && s.Keyed(k); }
  }

  ghost predicate Still(started: Lines, queues: Lines, started': Lines, queues': Lines, k: BucketKey) {
    (k in queues' <==> k in queues) && Of(started', k) == Of(started, k) && Of(queues', k) == Of(queues, k)
  }

  /** The head of the key's queue has started. */
  ghost predicate Moved(started: Lines, queues: Lines, started': Lines, queues': Lines, k: BucketKey) {
    k in queues && queues[k] != [] && Of(started', k) == Of(started, k) + [queues[k][0]]
    && Of(queues', k) == queues[k][1..]
  }

  /** No task of the key may start now. */
  ghost predicate FullIn(policies: imap<BucketKey, Options>, made: seq<Bucket>, buckets: map<BucketKey, nat>,
                         k: BucketKey) {
    var o := PolicyOf(policies, k);
    && k in buckets && buckets[k] < |made|
    && (|| (o.maxConcurrent > 0 && made[buckets[k]].active >= o.maxConcurrent)
        || (RateLimited(o) && |made[buckets[k]].startedAt| >= o.maxPerInterval))
  }

  /** The head of the key's queue has started, or nothing has and nothing may. */
  ghost predicate DrainedIn(policies: imap<BucketKey, Options>, made: seq<Bucket>, buckets: map<BucketKey, nat>,
                            started: Lines, queues: Lines, started': Lines, queues': Lines, k: BucketKey) {
    || Moved(started, queues, started', queues', k)
    || (Still(started, queues, started', queues', k) && (k in queues ==> FullIn(policies, made, buckets, k)))
  }

  /** One more key is dealt with, after lines `a`, `b` and `c` at the beginning, before and after it: the keys still
      to come are as they were at the beginning. */
  lemma TurnLeavesOthers(startedA: Lines, queuesA: Lines, startedB: Lines, queuesB: Lines,
                         startedC: Lines, queuesC: Lines,
                         keys: set<BucketKey>)
    requires forall j :: j in keys ==> Still(startedA, queuesA, startedB, queuesB, j)
    requires forall j :: j in keys ==> Still(startedB, queuesB, startedC, queuesC, j)
    ensures forall j :: j in keys ==> Still(startedA, queuesA, startedC, queuesC, j)
  {
    forall j | j in keys
      ensures Still(startedA, queuesA, startedC, queuesC, j)
    {
      assert Still(startedA, queuesA, startedB, queuesB, j) && Still(startedB, queuesB, startedC, queuesC, j);
    }
  }

  /** And a key dealt with earlier stays so. */
  lemma DrainedStays(policies: imap<BucketKey, Options>, made: seq<Bucket>, made': seq<Bucket>,
                     buckets: map<BucketKey, nat>,
                     startedA: Lines, queuesA: Lines, startedB: Lines, queuesB: Lines, startedC: Lines, queuesC: Lines,
                     j: BucketKey)
    requires DrainedIn(policies, made, buckets, startedA, queuesA, startedB, queuesB, j)
    requires Still(startedB, queuesB, startedC, queuesC, j)
    requires FullIn(policies, made, buckets, j) ==> FullIn(policies, made', buckets, j)
    ensures DrainedIn(policies, made', buckets, startedA, queuesA, startedC, queuesC, j)
  {
  }

  lemma DrainedNow(policies: imap<BucketKey, Options>, made: seq<Bucket>, buckets: map<BucketKey, nat>, startedA: Lines,
                   queuesA: Lines, startedB: Lines, queuesB: Lines, startedC: Lines, queuesC: Lines, k: BucketKey)
    requires Still(startedA, queuesA, startedB, queuesB, k)
    requires || Moved(startedB, queuesB, startedC, queuesC, k)
             || (Still(startedB, queuesB, startedC, queuesC, k) && FullIn(policies, made, buckets, k))
    ensures DrainedIn(policies, made, buckets, startedA, queuesA, startedC, queuesC, k)
  {
  }

  /** A wait that is no longer than it has to be: a millisecond if a running task is in the way, and otherwise the
      time, counted from `since`, until the oldest remembered start is an interval old. */
  ghost predicate WaitFits(policies: imap<BucketKey, Options>, made: seq<Bucket>, buckets: map<BucketKey, nat>,
                           since: int,
                           k: BucketKey, waitMs: int) {
    var o := PolicyOf(policies, k);
    && k in buckets && buckets[k] < |made|
    && var b := made[buckets[k]];
       if o.maxConcurrent > 0 && b.active >= o.maxConcurrent then waitMs <= 1
       else b.startedAt != [] && waitMs <= b.startedAt[0] + o.intervalMs - since
  }

  /** No bucket but one has changed. */
  ghost predicate Only(made: seq<Bucket>, made': seq<Bucket>, id: nat) {
    |made'| == |made| && forall i :: 0 <= i < |made| && i != id ==> made'[i] == made[i]
  }

  lemma OthersStayFull(s: State, made: seq<Bucket>, k: BucketKey)
    requires s.Good() && k in s.buckets && Only(s.made, made, s.buckets[k])
    ensures forall j :: j != k && FullIn(s.policies, s.made, s.buckets, j) ==> FullIn(s.policies, made, s.buckets, j)
  {
    forall j | j != k && FullIn(s.policies, s.made, s.buckets, j)
      ensures FullIn(s.policies, made, s.buckets, j)
    {
      assert s.Keyed(k) && s.Keyed(j);
    }
  }

  /** Nor does it change how long another key has to wait. */
  lemma OthersWaitAsLong(s: State, made: seq<Bucket>, k: BucketKey)
    requires s.Good() && k in s.buckets && Only(s.made, made, s.buckets[k])
    ensures forall since, j, w :: j != k && WaitFits(s.policies, s.made, s.buckets, since, j, w) ==>
                                    WaitFits(s.policies, made, s.buckets, since, j, w)
  {
    forall since, j, w | j != k && WaitFits(s.policies, s.made, s.buckets, since, j, w)
      ensures WaitFits(s.policies, made, s.buckets, since, j, w)
    {
      assert s.Keyed(k) && s.Keyed(j);
    }
  }

  lemma ShorterWaitFits(policies: imap<BucketKey, Options>, made: seq<Bucket>, buckets: map<BucketKey, nat>, since: int,
                        later: int, k: BucketKey, longer: int, waitMs: int)
    requires WaitFits(policies, made, buckets, later, k, longer) && since <= later && waitMs <= longer
    ensures WaitFits(policies, made, buckets, since, k, waitMs)
  {
  }

  function Shortest(soFar: Option<nat>, waitMs: nat): nat {
    if soFar.Some? && soFar.value < waitMs then soFar.value else waitMs
  }

  lemma ShortestWaitFits(policies: imap<BucketKey, Options>, made: seq<Bucket>, buckets: map<BucketKey, nat>,
                         queues: Lines,
                         rest: set<BucketKey>, since: int, later: int, k: BucketKey, soFar: Option<nat>, waitMs: nat)
    requires WaitFits(policies, made, buckets, later, k, waitMs) && since <= later
    requires forall j :: j in queues && j !in rest && j != k ==>
                           soFar.Some? && WaitFits(policies, made, buckets, since, j, soFar.value)
    ensures forall j :: j in queues && j !in rest ==>
                        WaitFits(policies, made, buckets, since, j, Shortest(soFar, waitMs))
  {
    forall j | j in queues && j !in rest
      ensures WaitFits(policies, made, buckets, since, j, Shortest(soFar, waitMs))
    {
      if j == k {
        ShorterWaitFits(policies, made, buckets, since, later, k, waitMs, Shortest(soFar, waitMs));
      } else {
        ShorterWaitFits(policies, made, buckets, since, since, j, soFar.value, Shortest(soFar, waitMs));
      }
    }
  }

  lemma ExtendsFurther(a: map<BucketKey, seq<int>>, b: map<BucketKey, seq<int>>, c: map<BucketKey, seq<int>>)
    requires Extends(a, b) && Extends(b, c)
    ensures Extends(a, c)
  {
    forall k
      ensures Of(a, k) <= Of(c, k)
    {
      assert Of(a, k) <= Of(b, k) <= Of(c, k);
    }
  }

  /** Rejecting the whole queue keeps every accepted item accounted for. */
  lemma RejectedInLine(accepted: Lines, started: Lines, rejected: Lines, queues: Lines)
    requires AllInLine(accepted, started, rejected, queues)
    ensures queues == map[] ==> AllInLine(accepted, started, rejected, map[])
    ensures rejected == map[] ==> AllInLine(accepted, started, queues, map[])
  {
    forall k
      ensures queues == map[] ==> InLine(accepted, started, rejected, map[], k)
      ensures rejected == map[] ==> InLine(accepted, started, queues, map[], k)
    {
      assert InLine(accepted, started, rejected, queues, k);
    }
  }

  lemma HeadUsesPolicy(s: State, k: BucketKey)
    requires s.Good() && k in s.queues
    ensures k in s.buckets && s.queues[k] != [] && s.queues[k][0].options == s.Policy(k)
  {
    assert s.Keyed(k);
  }

  lemma OwnerIsAnchored(s: State, id: nat)
    requires s.Good() && id < |s.made| && s.made[id].active > 0
    ensures s.made[id].key in s.buckets && s.buckets[s.made[id].key] == id && !s.made[id].cleanupArmed
  {
    assert s.Anchored(id);
  }

  lemma OldestIsPositive(s: State, k: BucketKey)
    requires s.Good() && s.Remembered(k) != []
    ensures 0 < s.Remembered(k)[0] <= s.clock
  {
    assert s.Historic(k);
  }

  /** The buckets once the timers of some of them are cleared. */
  function Disarmed(made: seq<Bucket>, ids: set<nat>): (r: seq<Bucket>)
    ensures |r| == |made|
    ensures forall i :: 0 <= i < |made| ==> r[i] == if i in ids then made[i].(cleanupArmed := false) else made[i]
  {
    seq(|made|, i requires 0 <= i < |made| => if i in ids then made[i].(cleanupArmed := false) else made[i])
  }

  /** Only buckets that a key leads to have an armed timer, so clearing theirs leaves none armed. */
  lemma AllAreDisarmed(s: State)
    requires s.Good()
    ensures forall id :: 0 <= id < |s.made| ==> !Disarmed(s.made, s.buckets.Values)[id].cleanupArmed
  {
    forall id: nat | id < |s.made|
      ensures !Disarmed(s.made, s.buckets.Values)[id].cleanupArmed
    {
      assert s.Anchored(id);
    }
  }

  lemma OneFewer(m: map<BucketKey, nat>, k: BucketKey)
    requires k in m
    ensures |m - {k}| == |m| - 1
  {
    assert (m - {k}).Keys == m.Keys - {k};
    assert |m.Keys - {k}| == |m.Keys| - 1;
  }

  /** The counters are the numbers of running tasks; a bucket whose timer is armed runs none and remembers starts. */
  ghost predicate Tallied(made: seq<Bucket>, running: multiset<nat>) {
    && (forall id :: id in running ==> id < |made|)
    && (forall id :: 0 <= id < |made| ==>
                       && made[id].active == running[id]
                       && (made[id].cleanupArmed ==> made[id].active == 0 && made[id].startedAt != []))
  }

  lemma FinishKeepsTally(made: seq<Bucket>, running: multiset<nat>, id: nat)
    requires Tallied(made, running) && id in running
    ensures made[id].active > 0 && !made[id].cleanupArmed
    ensures Tallied(made[id := made[id].(active := made[id].active - 1)], running - multiset{id})
  {
  }

  lemma DisarmedIsTallied(s: State)
    requires s.Good()
    ensures Tallied(Disarmed(s.made, s.buckets.Values), s.running)
  {
    AllAreDisarmed(s);
    forall id: nat | id < |s.made|
      ensures s.made[id].active == s.running[id]
    {
      assert s.Anchored(id);
    }
  }

  // ---- the limiter ----

  /** Every method is one synchronous step. */
  class Limiter {
    /** The one options value that each bucket is used with. */
    ghost const policies: imap<BucketKey, Options>
    var made: seq<Bucket>
    var buckets: map<BucketKey, nat>
    var queues: Lines
    var pending: set<BucketKey>
    /** The deadline of the drain timer, and whether a drain microtask is queued. */
    var drainTimer: Option<int>
    var drainScheduled: bool
    var isDisposed: bool
    var bypasses: nat
    var clock: int
    ghost var running: multiset<nat>
    ghost var starts: map<BucketKey, seq<int>>
    ghost var accepted: Lines
    ghost var started: Lines
    ghost var rejected: Lines
    ghost var finished: map<BucketKey, nat>

    ghost function Contents(): State
      reads this
    {
      State(policies, made, buckets, queues, clock, running, starts, accepted, started, rejected, finished)
    }

    /** What every step keeps: before disposal the state is good, and the pending buckets are exactly those
        with queued items. */
    ghost predicate Sound()
      reads this
    {
      && (if isDisposed then Quiet() else Contents().Good())
      && pending == queues.Keys
      && !(drainScheduled && drainTimer.Some?)
    }

    /** A disposed limiter has started or rejected all it accepted, and no drain is due.  Tasks that were running
        then are still counted by their buckets, which no key leads to any more. */
    ghost predicate Quiet()
      reads this
    {
      && queues == map[] && buckets == map[] && !drainScheduled && drainTimer.None?
      && Tallied(made, running)
      && AllInLine(accepted, started, rejected, queues)
    }

    /** No lost wake-up: queued work has an armed microtask or timer. */
    ghost predicate Awake()
      reads this
    {
      queues != map[] ==> drainScheduled || drainTimer.Some?
    }

    ghost predicate Valid()
      reads this
    {
      Sound() && Awake()
    }

    constructor (ghost policies: imap<BucketKey, Options>, now: int)
      requires now > 0
      ensures Valid() && !isDisposed
      ensures Contents() == State(policies, [], map[], map[], now, multiset{}, map[], map[], map[], map[], map[])
    {
      this.policies := policies;
      made, buckets, queues, pending := [], map[], map[], {};
      drainTimer, drainScheduled, isDisposed, bypasses := None, false, false, 0;
      clock := now;
      running, starts, accepted, started, rejected, finished := multiset{}, map[], map[], map[], map[], map[];
    }

    /** `Date.now()`. */
    method Now() returns (t: int)
      requires Sound()
      modifies this`clock
      ensures t == clock >= old(clock) && Sound() && Contents() == old(Contents()).Tick(t)
    {
      t :| t >= clock;
      clock := t;
      if !isDisposed {
        TickKeepsGood(old(Contents()), t);
      }
    }

    method ScheduleDrain(delayMs: nat)
      requires Sound()
      modifies this`drainTimer, this`drainScheduled, this`clock
      ensures Valid() && clock >= old(clock) && Contents() == old(Contents()).Tick(clock)
      ensures !isDisposed ==>
                && (drainScheduled || (drainTimer.Some? && drainTimer.value <= clock + delayMs))
                && (old(drainScheduled) || delayMs == 0 ==> drainScheduled)
                && (!old(drainScheduled) && delayMs > 0 && old(drainTimer).None? ==>
                      drainTimer == Some(clock + delayMs))
    {
      if isDisposed {
        return;
      }
      if delayMs == 0 {
        drainTimer := None;
        drainScheduled := true;
        return;
      }
      if drainScheduled {
        return;
      }
      var now := Now();
      var deadline := now + delayMs;
      if drainTimer.Some? && drainTimer.value <= deadline {
        return;
      }
      drainTimer := Some(deadline);
    }

    /** The bucket of a key has no task, no remembered start and no queued item. */
    predicate Idle(k: BucketKey)
      reads this`made, this`buckets, this`queues
    {
      && k in buckets && buckets[k] < |made|
      && made[buckets[k]].active == 0 && made[buckets[k]].startedAt == [] && k !in queues
    }

    /** `bucketState`: the bucket of a key, made if it is missing; at the limit idle buckets make room.  There is none
        only if the limit is reached and no bucket is idle. */
    method BucketState(k: BucketKey) returns (bucket: Option<nat>)
      requires Sound() && !isDisposed
      modifies this`made, this`buckets
      ensures Sound()
      ensures bucket == if k in buckets then Some(buckets[k]) else None
      ensures bucket.None? ==> |buckets| >= MAX_BUCKETS && forall j :: !Idle(j)
      ensures k in old(buckets) ==> Contents() == old(Contents())
    {
      if k in buckets {
        return Some(buckets[k]);
      }
      if |buckets| >= MAX_BUCKETS {
        EvictIdleBuckets();
        if |buckets| >= MAX_BUCKETS {
          return None;
        }
      }
      AddBucket(k);
      return Some(buckets[k]);
    }

    method AddBucket(k: BucketKey)
      requires Sound() && !isDisposed && k !in buckets
      modifies this`made, this`buckets
      ensures Sound() && Contents() == old(Contents()).Add(k)
    {
      ghost var was := Contents();
      made, buckets := made + [Bucket(k, 0, [], false)], buckets[k := |made|];
      AddKeepsGood(was, k);
      assert Contents() == was.Add(k);
    }

    method DropBucket(k: BucketKey)
      requires Sound() && k !in queues
      requires !isDisposed ==>
                 k in buckets && buckets[k] < |made| && made[buckets[k]].active == 0 && made[buckets[k]].startedAt == []
      modifies this`buckets
      ensures Sound() && Contents() == old(Contents()).Drop(k)
    {
      buckets := buckets - {k};
      if !isDisposed {
        DropKeepsGood(old(Contents()), k);
      }
    }

    /** Idle buckets go, and no others, until nine tenths of the limit are left or no bucket is idle. */
    method EvictIdleBuckets()
      requires Sound() && !isDisposed
      modifies this`buckets
      ensures Sound() && buckets.Keys <= old(buckets).Keys
      ensures forall k :: k in buckets ==> buckets[k] == old(buckets)[k]
      ensures forall k :: k in old(buckets) && k !in buckets ==> old(Idle(k))
      ensures |buckets| <= MAX_BUCKETS / 10 * 9 || forall k :: !Idle(k)
      ensures |buckets| < |old(buckets)| ==> |buckets| >= MAX_BUCKETS / 10 * 9
    {
      var keys := buckets.Keys;
      while keys != {}
        invariant Sound() && keys <= buckets.Keys && buckets.Keys <= old(buckets).Keys
        invariant forall k :: k in buckets ==> buckets[k] == old(buckets)[k]
        invariant forall k :: k in old(buckets) && k !in buckets ==> old(Idle(k))
        invariant forall k :: k in buckets && k !in keys ==> !Idle(k)
        invariant buckets == old(buckets) || |buckets| >= MAX_BUCKETS / 10 * 9
        decreases keys
      {
        var k :| k in keys;
        if |buckets| <= MAX_BUCKETS / 10 * 9 {
          return;
        }
        assert Contents().Keyed(k);
        if made[buckets[k]].active == 0 && made[buckets[k]].startedAt == [] && k !in queues {
          OneFewer(buckets, k);
          DropBucket(k);
        }
        keys := keys - {k};
      }
    }

    /** `schedule`.  An accepted item goes to the end of its queue and a drain is due at once; in every other
        case no queue changes. */
    method Schedule(k: BucketKey, item: Item) returns (r: Outcome)
      requires Valid() && item.options == Contents().Policy(k)
      modifies this`made, this`buckets, this`queues, this`pending, this`accepted, this`drainTimer, this`drainScheduled,
               this`clock, this`bypasses
      ensures Valid()
      ensures r.Disposed? <==> isDisposed
      ensures r.Direct? <==>
              && !isDisposed && item.options.maxConcurrent == 0
              && (item.options.intervalMs == 0 || item.options.maxPerInterval == 0)
      ensures r.Queued? ==> |Of(old(queues), k)| < MAX_QUEUE_PER_BUCKET && drainScheduled
      ensures r.Overflowed? || r.Bypassed? ==>
                |Of(queues, k)| >= MAX_QUEUE_PER_BUCKET && (r.Bypassed? <==> item.options.overflow == Bypass)
      ensures r.NoBucket? ==> |buckets| >= MAX_BUCKETS && k !in buckets && forall j :: !Idle(j)
      ensures accepted == if r.Queued? then old(accepted)[k := Of(old(accepted), k) + [item]] else old(accepted)
      ensures queues == if r.Queued? then old(queues)[k := Of(old(queues), k) + [item]] else old(queues)
      ensures bypasses == old(bypasses) + if r.Bypassed? then 1 else 0
    {
      if isDisposed {
        return Disposed;
      }
      if !Limits(item.options) {
        return Direct;
      }
      var bucket := BucketState(k);
      if bucket.None? {
        return NoBucket;
      }
      r := Accept(k, item);
    }

    method Accept(k: BucketKey, item: Item) returns (r: Outcome)
      requires Valid() && !isDisposed && k in buckets && Limits(item.options) && item.options == Contents().Policy(k)
      modifies this`queues, this`pending, this`accepted, this`drainTimer, this`drainScheduled, this`clock, this`bypasses
      ensures Valid()
      ensures r == if |Of(old(queues), k)| < MAX_QUEUE_PER_BUCKET then Queued
                   else if item.options.overflow == Bypass then Bypassed else Overflowed
      ensures r.Queued? ==> drainScheduled
      ensures accepted == if r.Queued? then old(accepted)[k := Of(old(accepted), k) + [item]] else old(accepted)
      ensures queues == if r.Queued? then old(queues)[k := Of(old(queues), k) + [item]] else old(queues)
      ensures bypasses == old(bypasses) + if r.Bypassed? then 1 else 0
    {
      var queue := if k in queues then queues[k] else [];
      if |queue| >= MAX_QUEUE_PER_BUCKET {
        if item.options.overflow == Bypass {
          bypasses := bypasses + 1;
          return Bypassed;
        }
        return Overflowed;
      }
      Enqueue(k, queue, item);
      ScheduleDrain(0);
      return Queued;
    }

    method Enqueue(k: BucketKey, queue: seq<Item>, item: Item)
      requires Sound() && !isDisposed && k in buckets && Limits(item.options) && item.options == Contents().Policy(k)
      requires queue == Of(queues, k)
      modifies this`queues, this`pending, this`accepted
      ensures Sound() && Contents() == old(Contents()).Enqueue(k, item)
    {
      queues, pending := queues[k := queue + [item]], pending + {k};
      accepted := accepted[k := Of(accepted, k) + [item]];
      EnqueueKeepsGood(old(Contents()), k, item);
    }

    /** The loop of `prune`. */
    static method DropOld(startedAt: seq<int>, now: int, intervalMs: nat) returns (kept: seq<int>)
      ensures kept == Recent(startedAt, now, intervalMs)
    {
      kept := startedAt;
      while |kept| > 0
        invariant Recent(kept, now, intervalMs) == Recent(startedAt, now, intervalMs)
        decreases |kept|
      {
        if now - kept[0] < intervalMs {
          break;
        }
        kept := kept[1..];
      }
    }

    /** `prune`: forgets the starts that are at least an interval old. */
    method Prune(bucket: nat, now: int, intervalMs: nat)
      requires Sound() && now <= clock && bucket < |made|
      requires intervalMs == Contents().Policy(made[bucket].key).intervalMs
      requires made[bucket].cleanupArmed ==> made[bucket].key in queues
      modifies this`made
      ensures Sound() && Contents() == old(Contents()).Forget(bucket, now)
    {
      if !isDisposed {
        ForgetKeepsGood(Contents(), bucket, now);
      }
      var kept := DropOld(made[bucket].startedAt, now, intervalMs);
      made := made[bucket := made[bucket].(startedAt := kept)];
    }

    /** `waitTime`: zero when the head of the queue may start, and otherwise, unless a running task is waited
        for, the time until the oldest remembered start is an interval old. */
    method WaitTime(k: BucketKey, o: Options) returns (waitMs: nat)
      requires Sound() && !isDisposed && k in queues && o == Contents().Policy(k)
      modifies this`clock, this`made
      ensures Sound() && k in buckets && buckets[k] < |made|
      ensures waitMs == 0 ==> Contents().CanStart(k)
      ensures clock >= old(clock) && (waitMs > 0 ==> FullIn(policies, made, buckets, k))
      ensures waitMs > 0 ==> WaitFits(policies, made, buckets, clock, k, waitMs)
      ensures waitMs > 0 && (o.maxConcurrent == 0 || made[buckets[k]].active < o.maxConcurrent) ==>
                made[buckets[k]].startedAt != [] && waitMs == made[buckets[k]].startedAt[0] + o.intervalMs - clock
      ensures Only(old(made), made, buckets[k])
    {
      assert Contents().Keyed(k);
      var bucket := buckets[k];
      var now := Now();
      if o.maxConcurrent > 0 && made[bucket].active >= o.maxConcurrent {
        return 1;
      }
      if !RateLimited(o) {
        return 0;
      }
      assert Contents().Keyed(k);
      waitMs := WindowWait(k, bucket, o, now);
    }

    /** The part of `waitTime` about the sliding window. */
    method WindowWait(k: BucketKey, bucket: nat, o: Options, now: int) returns (waitMs: nat)
      requires Sound() && !isDisposed && k in queues && o == Contents().Policy(k) && RateLimited(o) && now == clock
      requires k in buckets && bucket == buckets[k] < |made| && made[bucket].key == k
      requires o.maxConcurrent > 0 ==> made[bucket].active < o.maxConcurrent
      modifies this`made
      ensures Sound() && bucket < |made| && Only(old(made), made, bucket)
              && made[bucket].active == old(made)[bucket].active
      ensures waitMs == 0 ==> Contents().CanStart(k)
      ensures waitMs > 0 ==> FullIn(policies, made, buckets, k) && WaitFits(policies, made, buckets, clock, k, waitMs)
      ensures waitMs > 0 ==> made[bucket].startedAt != [] && waitMs == made[bucket].startedAt[0] + o.intervalMs - now
    {
      assert Contents().Keyed(k) && Contents().Historic(k);
      Prune(bucket, now, o.intervalMs);
      if |made[bucket].startedAt| < o.maxPerInterval {
        return 0;
      }
      var oldest := made[bucket].startedAt[0];
      OldestIsPositive(Contents(), k);
      if oldest == 0 {
        return 0;
      }
      var left := o.intervalMs - (now - oldest);
      return if left > 1 then left else 1;
    }

    /** The part of `drain` that starts the head of a queue. */
    method StartHead(k: BucketKey, now: int)
      requires Contents().CanStart(k) && queues[k][0].options == Contents().Policy(k)
      modifies this`made, this`queues, this`pending, this`running, this`starts, this`started
      ensures Contents() == old(Contents()).Start(k, now)
      ensures pending == if k in queues then old(pending) else old(pending) - {k}
    {
      var bucket := buckets[k];
      var item := Shift(k);
      made := made[bucket := Busier(made[bucket], item.options, now)];
      starts := if RateLimited(item.options) then starts[k := Of(starts, k) + [now]] else starts;
      running := running + multiset{bucket};
    }

    /** Takes the head off a queue; an empty queue is deleted. */
    method Shift(k: BucketKey) returns (item: Item)
      requires k in queues && queues[k] != []
      modifies this`queues, this`pending, this`started
      ensures item == old(queues)[k][0] && queues == Shorter(old(queues), k)
      ensures started == old(started)[k := Of(old(started), k) + [item]]
      ensures pending == if k in queues then old(pending) else old(pending) - {k}
    {
      item := queues[k][0];
      queues, started := Shorter(queues, k), started[k := Of(started, k) + [item]];
      pending := if k in queues then pending else pending - {k};
    }

    method StartNow(k: BucketKey)
      requires Sound() && !isDisposed && Contents().CanStart(k)
      modifies this`made, this`queues, this`pending, this`clock, this`running, this`starts, this`started
      ensures Sound() && queues == Shorter(old(queues), k) && clock >= old(clock) && Extends(old(starts), starts)
      ensures k in buckets && Only(old(made), made, buckets[k])
      ensures started == old(started)[k := Of(old(started), k) + [old(queues)[k][0]]]
    {
      var now := Now();
      HeadUsesPolicy(Contents(), k);
      StartKeepsGood(Contents(), k, now);
      StartKeepsTimes(Contents(), k, now);
      StartHead(k, now);
    }

    /** A drain has dealt with a key: the head of its queue has started, or no task of the key may start. */
    ghost predicate Drained(started: Lines, queues: Lines, k: BucketKey)
      reads this`started, this`queues, this`made, this`buckets
    {
      DrainedIn(policies, made, buckets, started, queues, this.started, this.queues, k)
    }

    /** Items left wait no longer than they have to. */
    ghost predicate AllWait(queues: Lines, since: int, waitMs: int)
      reads this`made, this`buckets
    {
      forall k :: k in queues ==> WaitFits(policies, made, buckets, since, k, waitMs)
    }

    ghost predicate AllWaitBut(queues: Lines, since: int, waitMs: Option<nat>, rest: set<BucketKey>)
      reads this`made, this`buckets
    {
      forall k :: k in queues && k !in rest ==>
                    waitMs.Some? && WaitFits(policies, made, buckets, since, k, waitMs.value)
    }

    ghost predicate AllDrained(started: Lines, queues: Lines)
      reads this`started, this`queues, this`made, this`buckets
    {
      forall k :: Drained(started, queues, k)
    }

    /** One turn of the loop of `drain`. */
    method DrainOne(k: BucketKey) returns (waitMs: nat)
      requires Sound() && !isDisposed && k in queues
      modifies this`made, this`queues, this`pending, this`clock, this`running, this`starts, this`started
      ensures Sound() && clock >= old(clock) && Extends(old(starts), starts)
      ensures waitMs == 0 ==> Moved(old(started), old(queues), started, queues, k)
      ensures waitMs > 0 ==> FullIn(policies, made, buckets, k)
                             && WaitFits(policies, made, buckets, old(clock), k, waitMs)
      ensures forall j :: j != k || waitMs > 0 ==> Still(old(started), old(queues), started, queues, j)
      ensures forall j :: j != k && FullIn(policies, old(made), buckets, j) ==> FullIn(policies, made, buckets, j)
      ensures forall since, j, w :: j != k && WaitFits(policies, old(made), buckets, since, j, w) ==>
                                      WaitFits(policies, made, buckets, since, j, w)
    {
      HeadUsesPolicy(Contents(), k);
      waitMs := WaitTime(k, queues[k][0].options);
      if waitMs == 0 {
        StartNow(k);
      }
      OthersStayFull(old(Contents()), made, k);
      OthersWaitAsLong(old(Contents()), made, k);
    }

    /** How far a drain is that began with some lines, start times and clock: it has dealt with all keys but some
        and armed nothing yet; `nextWaitMs` fits every bucket found full. */
    ghost predicate Progress(started: Lines, queues: Lines, starts: map<BucketKey, seq<int>>, since: int,
                             keys: set<BucketKey>, startedWork: bool, nextWaitMs: Option<nat>)
      reads this`started, this`queues, this`starts, this`clock, this`made, this`buckets
    {
      && (forall k :: k in keys ==> k in queues && Still(started, queues, this.started, this.queues, k))
      && (forall k :: k !in keys ==> Drained(started, queues, k))
      && clock >= since && Extends(starts, this.starts)
      && (startedWork || AllWaitBut(queues, since, nextWaitMs, keys))
    }

    /** One turn of the loop of `drain`. */
    method Turn(k: BucketKey, ghost keys: set<BucketKey>, startedWork: bool, nextWaitMs: Option<nat>,
                ghost started0: Lines, ghost queues0: Lines, ghost starts0: map<BucketKey, seq<int>>, ghost since: int)
        returns (started': bool, next': Option<nat>)
      requires Sound() && !isDisposed && k !in keys
      requires Progress(started0, queues0, starts0, since, keys + {k}, startedWork, nextWaitMs)
      modifies this`made, this`queues, this`pending, this`clock, this`running, this`starts, this`started
      ensures Sound() && Progress(started0, queues0, starts0, since, keys, started', next')
    {
      assert Still(started0, queues0, started, queues, k);
      ghost var before, queued, earlier, was, late := started, queues, starts, made, clock;
      var waitMs := DrainOne(k);
      ExtendsFurther(starts0, earlier, starts);
      TurnLeavesOthers(started0, queues0, before, queued, started, queues, keys);
      DrainedNow(policies, made, buckets, started0, queues0, before, queued, started, queues, k);
      forall j | j !in keys && j != k ensures Drained(started0, queues0, j) {
        DrainedStays(policies, was, made, buckets, started0, queues0, before, queued, started, queues, j);
      }
      if waitMs == 0 {
        return true, nextWaitMs;
      }
      started', next' := startedWork, Some(Shortest(nextWaitMs, waitMs));
      if !startedWork {
        ShortestWaitFits(policies, made, buckets, queues0, keys, since, late, k, nextWaitMs, waitMs);
      }
    }

    /** The loop of `drain`, over a snapshot of the pending buckets. */
    method DrainPending() returns (startedWork: bool, nextWaitMs: Option<nat>)
      requires Sound() && !isDisposed
      modifies this`made, this`queues, this`pending, this`clock, this`running, this`starts, this`started
      ensures Sound() && (queues != map[] ==> startedWork || nextWaitMs.Some?)
      ensures AllDrained(old(started), old(queues)) && clock >= old(clock) && Extends(old(starts), starts)
      ensures !startedWork && nextWaitMs.Some? ==> AllWait(queues, old(clock), nextWaitMs.value)
    {
      nextWaitMs, startedWork := None, false;
      var keys := pending;
      while keys != {}
        invariant Sound() && Progress(old(started), old(queues), old(starts), old(clock), keys, startedWork, nextWaitMs)
        decreases keys
      {
        var k :| k in keys;
        assert keys - {k} + {k} == keys;
        startedWork, nextWaitMs :=
          Turn(k, keys - {k}, startedWork, nextWaitMs, old(started), old(queues), old(starts), old(clock));
        keys := keys - {k};
      }
      forall k | k in queues
        ensures k in old(queues)
      {
        assert Drained(old(started), old(queues), k);
      }
    }

    /** `drain`: in every bucket with queued items either the head of the queue starts, and nothing else, or no
        task of the bucket may start; if items are left, a later drain is due.  An armed timer waits for no bucket
        longer than it has to, counted from the beginning of the drain. */
    method Drain()
      requires Sound()
      modifies this`made, this`queues, this`pending, this`clock, this`running, this`starts, this`started,
               this`drainTimer, this`drainScheduled
      ensures Valid()
      ensures !isDisposed ==> AllDrained(old(started), old(queues))
      ensures isDisposed ==> Contents() == old(Contents())
      ensures clock >= old(clock) && Extends(old(starts), starts)
      ensures !isDisposed && drainTimer.Some? ==> AllWait(queues, old(clock), drainTimer.value - clock)
    {
      if isDisposed {
        return;
      }
      drainTimer := None;
      var startedWork, nextWaitMs := DrainPending();
      if pending != {} {
        ScheduleDrain(if startedWork then 0 else nextWaitMs.value);
      }
    }

    /** The drain microtask. */
    method FireMicrotask()
      requires Valid() && (drainScheduled || isDisposed)
      modifies this`made, this`queues, this`pending, this`clock, this`running, this`starts, this`started,
               this`drainTimer, this`drainScheduled
      ensures Valid()
      ensures !isDisposed ==> AllDrained(old(started), old(queues))
      ensures isDisposed ==> Contents() == old(Contents())
      ensures clock >= old(clock) && Extends(old(starts), starts)
      ensures !isDisposed && drainTimer.Some? ==> AllWait(queues, old(clock), drainTimer.value - clock)
    {
      drainScheduled := false;
      Drain();
    }

    /** The drain timer. */
    method FireTimer()
      requires Valid() && drainTimer.Some?
      modifies this`made, this`queues, this`pending, this`clock, this`running, this`starts, this`started,
               this`drainTimer, this`drainScheduled
      ensures Valid() && AllDrained(old(started), old(queues))
      ensures clock >= old(clock) && Extends(old(starts), starts)
      ensures drainTimer.Some? ==> AllWait(queues, old(clock), drainTimer.value - clock)
    {
      drainTimer := None;
      Drain();
    }

    /** The `finally` callback of a task of a bucket.  After disposal it makes no drain due, but arms a cleanup timer
        exactly if there is an interval, the bucket still remembers a start, and this was its last task. */
    method Finish(bucket: nat, intervalMs: nat)
      requires Valid() && bucket in running
      requires bucket < |made| ==> intervalMs == Contents().Policy(made[bucket].key).intervalMs
      modifies this`made, this`buckets, this`running, this`finished, this`drainTimer, this`drainScheduled, this`clock
      ensures Valid() && running == old(running) - multiset{bucket} && (drainScheduled <==> !isDisposed)
      ensures bucket < |old(made)| && Only(old(made), made, bucket)
      ensures finished == OneMore(old(finished), old(made)[bucket].key)
      ensures made[bucket].active == old(made)[bucket].active - 1
              && made[bucket].startedAt == old(made)[bucket].startedAt
      ensures isDisposed ==>
                (made[bucket].cleanupArmed <==> intervalMs > 0 && made[bucket].startedAt != [] && bucket !in running)
    {
      CountDown(bucket);
      CleanupBucket(made[bucket].key, bucket, intervalMs);
      ScheduleDrain(0);
    }

    method CountDown(bucket: nat)
      requires Sound() && bucket in running
      modifies this`made, this`running, this`finished
      ensures Sound() && bucket < |old(made)| && old(made)[bucket].active > 0 && !old(made)[bucket].cleanupArmed
      ensures Contents() == old(Contents()).Finish(bucket)
      ensures !isDisposed ==> made[bucket].key in buckets && buckets[made[bucket].key] == bucket
    {
      if isDisposed {
        FinishKeepsTally(made, running, bucket);
        Decrement(bucket);
      } else {
        FinishKeepsGood(Contents(), bucket);
        OwnerIsAnchored(Contents(), bucket);
        Decrement(bucket);
      }
    }

    method Decrement(bucket: nat)
      requires bucket in running && bucket < |made| && made[bucket].active > 0
      modifies this`made, this`running, this`finished
      ensures Contents() == old(Contents()).Finish(bucket)
    {
      ghost var after := Contents().Finish(bucket);
      made := made[bucket := made[bucket].(active := made[bucket].active - 1)];
      running, finished := after.running, after.finished;
    }

    /** `cleanupBucket`: forgets an idle bucket, or arms the timer that will. */
    method CleanupBucket(k: BucketKey, bucket: nat, intervalMs: nat)
      requires Sound() && bucket < |made| && made[bucket].key == k && intervalMs == Contents().Policy(k).intervalMs
      requires !isDisposed ==> k in buckets && buckets[k] == bucket
      modifies this`made, this`buckets
      ensures Sound() && Only(old(made), made, bucket)
      ensures made[bucket] == old(made)[bucket].(cleanupArmed := made[bucket].cleanupArmed)
      ensures made[bucket].cleanupArmed <==>
              old(made)[bucket].cleanupArmed
              || (intervalMs > 0 && made[bucket].active == 0 && made[bucket].startedAt != [] && k !in queues)
      ensures buckets == old(buckets) || buckets == old(buckets) - {k}
    {
      if k !in queues && made[bucket].active == 0 && made[bucket].startedAt == [] {
        DropBucket(k);
        return;
      }
      if intervalMs == 0 || made[bucket].active > 0 || k in queues {
        return;
      }
      made := made[bucket := made[bucket].(cleanupArmed := true)];
      if !isDisposed {
        PutKeepsGood(old(Contents()), bucket, made[bucket]);
      }
    }

    /** The timer is no longer armed; the bucket it was armed for is idle, and the one its key leads to. */
    method Disarm(bucket: nat)
      requires Sound() && bucket < |made| && made[bucket].cleanupArmed
      modifies this`made
      ensures Sound() && made == old(made)[bucket := old(made)[bucket].(cleanupArmed := false)]
      ensures made[bucket].active == 0
      ensures !isDisposed ==> made[bucket].key in buckets && buckets[made[bucket].key] == bucket
    {
      if !isDisposed {
        assert Contents().Anchored(bucket);
        PutKeepsGood(Contents(), bucket, made[bucket].(cleanupArmed := false));
      }
      made := made[bucket := made[bucket].(cleanupArmed := false)];
    }

    /** The cleanup timer of a bucket, before or after disposal. */
    method FireCleanup(bucket: nat, intervalMs: nat)
      requires Valid() && bucket < |made| && made[bucket].cleanupArmed
      requires intervalMs == Contents().Policy(made[bucket].key).intervalMs
      modifies this`made, this`buckets, this`clock
      ensures Valid() && Only(old(made), made, bucket) && !made[bucket].cleanupArmed
      ensures var k := made[bucket].key;
              buckets == if k !in queues && made[bucket].startedAt == [] then old(buckets) - {k} else old(buckets)
    {
      Disarm(bucket);
      ForgetIdle(bucket, intervalMs);
    }

    method ForgetIdle(bucket: nat, intervalMs: nat)
      requires Sound() && bucket < |made| && made[bucket].active == 0 && !made[bucket].cleanupArmed
      requires !isDisposed ==> made[bucket].key in buckets && buckets[made[bucket].key] == bucket
      requires intervalMs == Contents().Policy(made[bucket].key).intervalMs
      modifies this`made, this`buckets, this`clock
      ensures Sound() && Only(old(made), made, bucket) && !made[bucket].cleanupArmed
      ensures made[bucket].key == old(made)[bucket].key
      ensures var k := made[bucket].key;
              buckets == if k !in queues && made[bucket].startedAt == [] then old(buckets) - {k} else old(buckets)
    {
      var k := made[bucket].key;
      var now := Now();
      Prune(bucket, now, intervalMs);
      if made[bucket].active == 0 && made[bucket].startedAt == [] && k !in queues {
        DropBucket(k);
      }
    }

    /** Every queued item is rejected, no drain is due any more, and nothing is queued again.  Tasks that are running
        go on; a second call clears no timer that one of them has armed since. */
    method Dispose()
      requires Valid()
      modifies this`made, this`buckets, this`queues, this`pending, this`rejected, this`drainTimer, this`drainScheduled,
               this`isDisposed
      ensures Valid() && isDisposed
      ensures rejected == if old(isDisposed) then old(rejected) else old(queues)
      ensures !drainScheduled && drainTimer.None?
      ensures old(isDisposed) ==> made == old(made)
      ensures !old(isDisposed) ==> forall id :: 0 <= id < |made| ==> !made[id].cleanupArmed
    {
      Silence();
      RejectAll();
      isDisposed := true;
    }

    /** Clears the drain timer and the timers of the buckets that keys lead to. */
    method Silence()
      requires Valid()
      modifies this`made, this`drainTimer, this`drainScheduled
      ensures made == Disarmed(old(made), buckets.Values) && drainTimer == None && !drainScheduled
      ensures Tallied(made, running)
      ensures isDisposed ==> made == old(made)
      ensures !isDisposed ==> forall id :: 0 <= id < |made| ==> !made[id].cleanupArmed
    {
      if !isDisposed {
        AllAreDisarmed(Contents());
        DisarmedIsTallied(Contents());
      }
      drainTimer, drainScheduled, made := None, false, Disarmed(made, buckets.Values);
    }

    method RejectAll()
      requires AllInLine(accepted, started, rejected, queues)
               && (if isDisposed then queues == map[] else rejected == map[])
      modifies this`buckets, this`queues, this`pending, this`rejected
      ensures queues == map[] && pending == {} && buckets == map[] && AllInLine(accepted, started, rejected, queues)
      ensures rejected == if isDisposed then old(rejected) else old(queues)
    {
      RejectedInLine(accepted, started, rejected, queues);
      rejected := if isDisposed then rejected else queues;
      queues, pending, buckets := map[], {}, map[];
    }
  }

  // ---- what holds at all times ----

  /** A task that is neither finished nor waiting is running, a key never has more running tasks than its cap, every
      start has its time, and no window of the interval's length has more starts than its rate allows, whatever was
      pruned, cleaned up or evicted. */
  lemma RatesHold(s: State, k: BucketKey, from: int)
    requires s.Good()
    ensures var o := s.Policy(k);
            o.intervalMs > 0 && o.maxPerInterval > 0 ==>
              && |InWindow(Of(s.starts, k), from, o.intervalMs)| <= o.maxPerInterval
              && |Of(s.starts, k)| == |Of(s.started, k)|
    ensures Number(s.finished, k) <= |Of(s.started, k)|
    ensures s.Policy(k).maxConcurrent > 0 ==>
              |Of(s.started, k)| - Number(s.finished, k) <= s.Policy(k).maxConcurrent
    ensures Of(s.accepted, k) == Of(s.started, k) + Of(s.queues, k)
    ensures forall i, j ::
              0 <= i < |s.made| && 0 <= j < |s.made| && s.made[i].key == k && s.made[j].key == k ==>
                s.running[i] > 0 && s.running[j] > 0 ==> i == j
  {
    assert s.Historic(k) && Timed(s.policies, s.starts, s.started, k);
    if RateLimited(s.Policy(k)) {
      WindowBound(Of(s.starts, k), s.Policy(k), from);
    }
    assert s.Accounted(k) && s.Keyed(k);
    if k in s.buckets {
      assert s.Anchored(s.buckets[k]);
    }
    assert InLine(s.accepted, s.started, s.rejected, s.queues, k);
    forall id: nat | id < |s.made| && s.made[id].key == k
      ensures s.running[id] > 0 ==> k in s.buckets && s.buckets[k] == id
    {
      assert s.Anchored(id);
    }
  }
}
