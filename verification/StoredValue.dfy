/** The envelope around a stored value and its lifetime (src/internal/StoredValue.ts).  Times and
    durations are real milliseconds; `clock` is the reading of `Date.now()`. */
module StoredValue {
  import opened OrderedMap

  datatype Kind = KindValue | KindEmpty

  datatype State = Fresh | StaleWhileRevalidate | StaleIfError | Expired

  datatype Envelope = Envelope(
    kind: Kind,
    value: Value,
    freshUntil: Option<real>,
    staleUntil: Option<real>,
    errorUntil: Option<real>,
    freshTtlMs: Option<real>,
    staleWhileRevalidateMs: Option<real>,
    staleIfErrorMs: Option<real>)

  /** What a caller may store; `Undefined` is the missing value. */
  datatype Value = Undefined | NullValue | Payload(payload: nat)

  datatype Options = Options(
    kind: Kind,
    value: Value,
    freshTtlMs: Option<real>,
    staleWhileRevalidateMs: Option<real>,
    staleIfErrorMs: Option<real>)

  /** What a layer may hand back: an object with the envelope's fields, or any other value. */
  datatype Stored = Wrapped(envelope: Envelope) | Raw(raw: Value)

  const TEN_YEARS_MS: real := 315360000000.0

  predicate WithinTenYears(deadline: Option<real>, clock: real) {
    deadline.Some? ==> deadline.value <= clock + TEN_YEARS_MS
  }

  predicate ValidTtl(ttl: Option<real>) {
    ttl.Some? ==> 0.0 < ttl.value <= TEN_YEARS_MS
  }

  /** `isStoredValueEnvelope` on an object that has the envelope's fields. */
  predicate IsEnvelope(e: Envelope, clock: real) {
    && WithinTenYears(e.freshUntil, clock)
    && WithinTenYears(e.staleUntil, clock)
    && WithinTenYears(e.errorUntil, clock)
    && !(e.freshUntil.None? && (e.staleUntil.Some? || e.errorUntil.Some?))
    && (e.freshUntil.Some? && e.staleUntil.Some? ==> e.staleUntil.value >= e.freshUntil.value)
    && (e.freshUntil.Some? && e.errorUntil.Some? ==> e.errorUntil.value >= e.freshUntil.value)
    && ValidTtl(e.freshTtlMs) && ValidTtl(e.staleWhileRevalidateMs) && ValidTtl(e.staleIfErrorMs)
    && !(e.freshTtlMs.None? && (e.staleWhileRevalidateMs.Some? || e.staleIfErrorMs.Some?))
  }

  predicate Accepted(s: Stored, clock: real) {
    s.Wrapped? && IsEnvelope(s.envelope, clock)
  }

  function NormalizePositive(ms: Option<real>): Option<real> {
    if ms.None? || ms.value <= 0.0 then None else ms
  }

  /** A deadline of exactly zero is falsy, so no window is added to it. */
  function Later(base: Option<real>, window: Option<real>): Option<real> {
    if base.Some? && base.value != 0.0 && window.Some? then Some(base.value + window.value) else None
  }

  function Create(o: Options, now: real): Envelope {
    var freshTtl := NormalizePositive(o.freshTtlMs);
    var staleTtl := NormalizePositive(o.staleWhileRevalidateMs);
    var errorTtl := NormalizePositive(o.staleIfErrorMs);
    var freshUntil := if freshTtl.Some? then Some(now + freshTtl.value) else None;
    Envelope(o.kind, o.value, freshUntil, Later(freshUntil, staleTtl), Later(freshUntil, errorTtl),
             freshTtl, staleTtl, errorTtl)
  }

  /** `resolveStoredValue`. */
  function Resolve(s: Stored, now: real, clock: real): State {
    if !Accepted(s, clock) then Fresh
    else
      var e := s.envelope;
      if e.freshUntil.None? || e.freshUntil.value > now then Fresh
      else if e.staleUntil.Some? && e.staleUntil.value > now then StaleWhileRevalidate
      else if e.errorUntil.Some? && e.errorUntil.value > now then StaleIfError
      else Expired
  }

  /** What a reader gets: the unwrapped value, or the stored object itself when it is not accepted. */
  datatype Served = ServedValue(value: Value) | ServedObject(envelope: Envelope)

  function Unwrap(s: Stored, clock: real): Served {
    match s
    case Raw(v) => ServedValue(v)
    case Wrapped(e) =>
      if !IsEnvelope(e, clock) then ServedObject(e)
      else if e.kind == KindEmpty || e.value == Undefined then ServedValue(NullValue)
      else ServedValue(e.value)
  }

  function Max(a: Option<real>, b: Option<real>): Option<real> {
    if a.None? then b else if b.None? || a.value >= b.value then a else b
  }

  function MaxExpiry(e: Envelope): Option<real> {
    Max(Max(e.freshUntil, e.staleUntil), e.errorUntil)
  }

  function Ceil(x: real): int {
    if x.Floor as real == x then x.Floor else x.Floor + 1
  }

  function RemainingTtl(s: Stored, now: real, clock: real): Option<int> {
    if !Accepted(s, clock) || MaxExpiry(s.envelope).None? then None
    else
      var remaining := MaxExpiry(s.envelope).value - now;
      if remaining <= 0.0 || Ceil(remaining) <= 1 then Some(1) else Some(Ceil(remaining))
  }

  function RemainingFreshTtl(s: Stored, now: real, clock: real): Option<int> {
    if !Accepted(s, clock) || s.envelope.freshUntil.None? then None
    else
      var remaining := s.envelope.freshUntil.value - now;
      if remaining <= 0.0 then Some(0)
      else if Ceil(remaining) <= 1 then Some(1) else Some(Ceil(remaining))
  }

  function Refresh(s: Stored, now: real, clock: real): Stored {
    if !Accepted(s, clock) then s
    else
      var e := s.envelope;
      Wrapped(Create(Options(e.kind, e.value, e.freshTtlMs, e.staleWhileRevalidateMs, e.staleIfErrorMs), now))
  }

  function Min(a: real, b: Option<real>): real {
    if b.Some? && b.value < a then b.value else a
  }

  function Expire(s: Stored, now: real, clock: real): Stored {
    if !Accepted(s, clock) then s
    else Wrapped(s.envelope.(freshUntil := Some(Min(Min(now, s.envelope.staleUntil), s.envelope.errorUntil))))
  }

  // ---- which created envelopes are accepted ----

  /** A condition on the options alone: windows only beside a positive fresh TTL, and every deadline within
      ten years of the creation. */
  predicate Sound(o: Options) {
    var freshTtl := NormalizePositive(o.freshTtlMs);
    var staleTtl := NormalizePositive(o.staleWhileRevalidateMs);
    var errorTtl := NormalizePositive(o.staleIfErrorMs);
    && (freshTtl.None? ==> staleTtl.None? && errorTtl.None?)
    && (freshTtl.Some? ==> freshTtl.value <= TEN_YEARS_MS)
    && (freshTtl.Some? && staleTtl.Some? ==> freshTtl.value + staleTtl.value <= TEN_YEARS_MS)
    && (freshTtl.Some? && errorTtl.Some? ==> freshTtl.value + errorTtl.value <= TEN_YEARS_MS)
  }

  /** A created envelope is accepted at its creation exactly when its options are sound; with a stale window
      but no fresh TTL, the validator rejects what the constructor made. */
  lemma CreatedIsAccepted(o: Options, now: real)
    requires now > 0.0
    ensures IsEnvelope(Create(o, now), now) <==> Sound(o)
  {
  }

  /** The counterexample to acceptance of everything created: a window without a TTL.  The reader then gets
      the envelope object in place of the value, as fresh, at any time. */
  lemma WindowWithoutTtlIsServedRaw(v: Value, now: real, clock: real)
    ensures var e := Create(Options(KindValue, v, None, Some(1000.0), None), now);
            !IsEnvelope(e, clock) && Resolve(Wrapped(e), now, clock) == Fresh
            && Unwrap(Wrapped(e), clock) == ServedObject(e)
  {
  }

  /** Acceptance only grows: an envelope accepted once is accepted at every later clock reading, so it is
      accepted for its whole life. */
  lemma AcceptedForever(e: Envelope, clock: real, later: real)
    requires IsEnvelope(e, clock) && clock <= later
    ensures IsEnvelope(e, later)
  {
  }

  /** A sound envelope is accepted from its creation on. */
  lemma SoundIsAcceptedForever(o: Options, now: real, clock: real)
    requires 0.0 < now <= clock && Sound(o)
    ensures IsEnvelope(Create(o, now), clock)
  {
    CreatedIsAccepted(o, now);
    AcceptedForever(Create(o, now), now, clock);
  }

  /** What the validator does not accept is opaque: it is fresh at any time, has no remaining life, is left alone by
      refreshing and expiring, and is served as it is. */
  lemma UnacceptedIsOpaque(s: Stored, now: real, clock: real)
    requires !Accepted(s, clock)
    ensures Resolve(s, now, clock) == Fresh
    ensures RemainingTtl(s, now, clock) == None && RemainingFreshTtl(s, now, clock) == None
    ensures Refresh(s, now, clock) == s && Expire(s, now, clock) == s
    ensures Unwrap(s, clock) == if s.Raw? then ServedValue(s.raw) else ServedObject(s.envelope)
  {
  }

  /** The windows of an accepted envelope, however it was made, end no earlier than its freshness. */
  lemma WindowsOutlastFreshness(e: Envelope, end: real)
    requires IsEnvelope(e, end) && (e.staleUntil == Some(end) || e.errorUntil == Some(end))
    ensures e.freshUntil.Some? && e.freshUntil.value <= end && Resolve(Wrapped(e), end, end) != Fresh
  {
  }

  /** Refreshing an accepted envelope, however it was made, gives an accepted one if and only if its TTL and each of its
      windows together are within ten years: the validator checks them one by one. */
  lemma RefreshIsAcceptedIff(e: Envelope, now: real)
    requires 0.0 < now && IsEnvelope(e, now)
    ensures Accepted(Refresh(Wrapped(e), now, now), now) <==>
            && (e.staleWhileRevalidateMs.Some? ==>
                  e.freshTtlMs.Some? && e.freshTtlMs.value + e.staleWhileRevalidateMs.value <= TEN_YEARS_MS)
            && (e.staleIfErrorMs.Some? ==>
                  e.freshTtlMs.Some? && e.freshTtlMs.value + e.staleIfErrorMs.value <= TEN_YEARS_MS)
  {
    CreatedIsAccepted(Options(e.kind, e.value, e.freshTtlMs, e.staleWhileRevalidateMs, e.staleIfErrorMs), now);
  }

  // ---- states move one way ----

  function Age(s: State): nat {
    match s case Fresh => 0 case StaleWhileRevalidate => 1 case StaleIfError => 2 case Expired => 3
  }

  /** The state of an accepted envelope never moves back towards fresh as time passes. */
  lemma StateMovesForward(e: Envelope, now: real, clock: real, later: real, laterClock: real)
    requires IsEnvelope(e, clock) && now <= later && clock <= laterClock
    ensures Age(Resolve(Wrapped(e), now, clock)) <= Age(Resolve(Wrapped(e), later, laterClock))
  {
    AcceptedForever(e, clock, laterClock);
  }

  /** The life of a sound envelope: fresh for its TTL, then stale-while-revalidate and stale-if-error for
      their windows counted from the end of freshness, then expired. */
  lemma Lifetime(o: Options, created: real, now: real)
    requires 0.0 < created <= now && Sound(o)
    ensures var freshTtl := NormalizePositive(o.freshTtlMs);
            var staleTtl := NormalizePositive(o.staleWhileRevalidateMs);
            var errorTtl := NormalizePositive(o.staleIfErrorMs);
            var age := now - created;
            Resolve(Wrapped(Create(o, created)), now, now) ==
            if freshTtl.None? || age < freshTtl.value then Fresh
            else if staleTtl.Some? && age < freshTtl.value + staleTtl.value then StaleWhileRevalidate
            else if errorTtl.Some? && age < freshTtl.value + errorTtl.value then StaleIfError
            else Expired
  {
    SoundIsAcceptedForever(o, created, now);
  }

  // ---- the remaining TTL ----

  lemma CeilIsLeast(x: real)
    ensures Ceil(x) as real >= x && (Ceil(x) - 1) as real < x
  {
  }

  /** On whole milliseconds `remainingStoredTtlMs` is exactly the time to expired: `ttl` milliseconds from now
      the envelope is expired, one millisecond earlier it is not.  (In general it rounds up.) */
  lemma RemainingIsTimeToExpired(e: Envelope, now: int, expiry: int, t: int)
    requires IsEnvelope(e, now as real)
    requires MaxExpiry(e) == Some(expiry as real) && now < expiry
    requires now <= t
    ensures RemainingTtl(Wrapped(e), now as real, now as real) == Some(expiry - now)
    ensures Resolve(Wrapped(e), t as real, t as real) == Expired <==>
            t - now >= RemainingTtl(Wrapped(e), now as real, now as real).value
  {
    assert expiry as real - now as real == (expiry - now) as real;
    CeilOfWhole(expiry - now);
    AcceptedForever(e, now as real, t as real);
    ExpiredFrom(e, t as real);
    WholeOrder(expiry, t);
  }

  lemma CeilOfWhole(n: int)
    ensures Ceil(n as real) == n
  {
  }

  lemma WholeOrder(a: int, b: int)
    ensures a as real <= b as real <==> a <= b
  {
  }

  /** An accepted envelope with a deadline is expired from its last deadline on. */
  lemma ExpiredFrom(e: Envelope, at: real)
    requires IsEnvelope(e, at) && MaxExpiry(e).Some?
    ensures Resolve(Wrapped(e), at, at) == Expired <==> MaxExpiry(e).value <= at
  {
  }

  /** For any times: the rounded-up TTL reaches the expired state and less than a millisecond less does not
      overshoot it.  An envelope already expired gets the minimum of one millisecond. */
  lemma RemainingCoversLife(e: Envelope, now: real)
    requires IsEnvelope(e, now) && MaxExpiry(e).Some?
    ensures RemainingTtl(Wrapped(e), now, now).Some? && RemainingTtl(Wrapped(e), now, now).value >= 1
    ensures var at := now + RemainingTtl(Wrapped(e), now, now).value as real;
            Resolve(Wrapped(e), at, at) == Expired
    ensures var ttl := RemainingTtl(Wrapped(e), now, now).value;
            ttl > 1 ==> Resolve(Wrapped(e), now + (ttl - 1) as real, now + (ttl - 1) as real) != Expired
    ensures Resolve(Wrapped(e), now, now) == Expired ==> RemainingTtl(Wrapped(e), now, now) == Some(1)
  {
    var remaining := MaxExpiry(e).value - now;
    CeilIsLeast(remaining);
    var ttl := RemainingTtl(Wrapped(e), now, now).value;
    AcceptedForever(e, now, now + ttl as real);
    if ttl > 1 {
      AcceptedForever(e, now, now + (ttl - 1) as real);
    }
  }

  /** On whole milliseconds `remainingFreshTtlMs` is exactly the time for which the value stays fresh, and zero once
      it no longer is.  (In general it rounds up.) */
  lemma RemainingFreshIsTimeFresh(e: Envelope, now: int, until: int, t: int)
    requires IsEnvelope(e, now as real) && e.freshUntil == Some(until as real) && now <= t
    ensures RemainingFreshTtl(Wrapped(e), now as real, now as real) == Some(if now < until then until - now else 0)
    ensures Resolve(Wrapped(e), t as real, t as real) == Fresh <==>
            t - now < RemainingFreshTtl(Wrapped(e), now as real, now as real).value
  {
    assert until as real - now as real == (until - now) as real;
    AcceptedForever(e, now as real, t as real);
  }

  // ---- refresh and expire ----

  /** Refreshing a sound envelope at any later time is creating it anew at that time. */
  lemma RefreshIsRecreate(o: Options, created: real, now: real, clock: real)
    requires 0.0 < created <= clock && Sound(o)
    ensures Refresh(Wrapped(Create(o, created)), now, clock) == Wrapped(Create(o, now))
  {
    SoundIsAcceptedForever(o, created, clock);
  }

  /** Expiring an accepted envelope keeps everything but its freshness: it is still accepted, its value and
      windows are as before, it is never fresh again, and it is in no earlier state than it would have been. */
  lemma ExpireEndsFreshness(e: Envelope, now: real, later: real)
    requires IsEnvelope(e, now) && now <= later
    ensures Expire(Wrapped(e), now, now).Wrapped?
    ensures var x := Expire(Wrapped(e), now, now).envelope;
            && IsEnvelope(x, now)
            && x == e.(freshUntil := x.freshUntil)
            && Unwrap(Wrapped(x), later) == Unwrap(Wrapped(e), later)
            && Resolve(Wrapped(x), later, later) != Fresh
            && Age(Resolve(Wrapped(x), later, later)) >= Age(Resolve(Wrapped(e), later, later))
            && (Resolve(Wrapped(e), later, later) != Fresh ==>
                  Resolve(Wrapped(x), later, later) == Resolve(Wrapped(e), later, later))
  {
    var x := Expire(Wrapped(e), now, now).envelope;
    AcceptedForever(e, now, later);
    AcceptedForever(x, now, later);
  }

  /** The life of an envelope that was expired at some time: from then on it is in its stale windows, which still count
      from the creation, and then expired, whatever was left of its freshness. */
  lemma LifetimeOnceExpired(o: Options, created: real, expired: real, now: real)
    requires 0.0 < created <= expired <= now && Sound(o)
    ensures var freshTtl := NormalizePositive(o.freshTtlMs);
            var staleTtl := NormalizePositive(o.staleWhileRevalidateMs);
            var errorTtl := NormalizePositive(o.staleIfErrorMs);
            var age := now - created;
            Resolve(Expire(Wrapped(Create(o, created)), expired, expired), now, now) ==
            if freshTtl.Some? && staleTtl.Some? && age < freshTtl.value + staleTtl.value then StaleWhileRevalidate
            else if freshTtl.Some? && errorTtl.Some? && age < freshTtl.value + errorTtl.value then StaleIfError
            else Expired
  {
    SoundIsAcceptedForever(o, created, expired);
    ExpireEndsFreshness(Create(o, created), expired, now);
    AcceptedForever(Expire(Wrapped(Create(o, created)), expired, expired).envelope, expired, now);
  }
}
