/** A stack of layers used by one caller at a time, every write going through to every layer. */
module Coherence {
  import opened OrderedMap
  import opened Keys
  import opened StoredValue

  // The reads are those of src/internal/CacheStackReader.ts:221-350, the writes those of
  // src/internal/CacheStackLayerWriter.ts:48-106,232-265 and src/CacheStack.ts:1329-1341.  The clock advances between
  // operations.

  datatype Cell = Cell(stored: Stored, expiresAt: Option<real>)

  type Layer = map<Key, Cell>

  /** The per-layer part of the write options. */
  datatype Windows = Windows(freshTtlMs: Option<real>, staleWhileRevalidateMs: Option<real>,
                           staleIfErrorMs: Option<real>)

  /** The last write of a key; `sound` tells whether all its envelopes were made with sound options. */
  datatype Written = Written(kind: Kind, value: Value, sound: bool)

  function OptionsFor(kind: Kind, value: Value, w: Windows): Options {
    Options(kind, value, w.freshTtlMs, w.staleWhileRevalidateMs, w.staleIfErrorMs)
  }

  // ---- one layer ----

  function Expiry(ttl: Option<real>, layerTtl: Option<real>, now: real): Option<real> {
    var t := if ttl.Some? then ttl else layerTtl;
    if t.Some? && t.value > 0.0 then Some(now + t.value) else None
  }

  predicate Lapsed(c: Cell, now: real) {
    c.expiresAt.Some? && c.expiresAt.value <= now
  }

  function AsReal(ttl: Option<int>): Option<real> {
    if ttl.Some? then Some(ttl.value as real) else None
  }

  /** `set` of a layer. */
  function LayerSet(layer: Layer, k: Key, stored: Stored, ttl: Option<real>, layerTtl: Option<real>, now: real): Layer {
    layer[k := Cell(stored, Expiry(ttl, layerTtl, now))]
  }

  /** `getEntry` of a layer: a lapsed entry is deleted and not returned. */
  function LayerRead(layer: Layer, k: Key, now: real): (Layer, Option<Stored>) {
    if k !in layer then (layer, None)
    else if Lapsed(layer[k], now) then (layer - {k}, None)
    else (layer, Some(layer[k].stored))
  }

  // ---- what a read should do ----

  /** A layer answers a read: it has an unlapsed entry that is not expired (and is fresh, if it must be). */
  predicate Serves(layer: Layer, k: Key, now: real, freshOnly: bool) {
    && k in layer && (layer[k].expiresAt.Some? ==> now < layer[k].expiresAt.value)
    && Resolve(layer[k].stored, now, now) != Expired
    && (freshOnly ==> Resolve(layer[k].stored, now, now) == Fresh)
  }

  /** The first layer that answers, or the number of layers. */
  function FirstHit(layers: seq<Layer>, k: Key, now: real, freshOnly: bool): (n: nat)
    ensures n <= |layers| && (n < |layers| ==> Serves(layers[n], k, now, freshOnly))
    ensures forall i :: 0 <= i < n ==> !Serves(layers[i], k, now, freshOnly)
  {
    if layers == [] || Serves(layers[0], k, now, freshOnly) then 0
    else 1 + FirstHit(layers[1..], k, now, freshOnly)
  }

  /** What a write puts in one layer (`buildLayerSetEntry`). */
  function SetIn(layer: Layer, k: Key, o: Options, layerTtl: Option<real>, now: real): Layer {
    var payload := Wrapped(Create(o, now));
    var remaining := AsReal(RemainingTtl(payload, now, now));
    LayerSet(layer, k, payload, if remaining.Some? then remaining else o.freshTtlMs, layerTtl, now)
  }

  /** What the caller is given for a stored value. */
  function Reply(stored: Stored, clock: real): Served {
    if Accepted(stored, clock) && stored.envelope.kind == KindEmpty then ServedValue(Undefined)
    else Unwrap(stored, clock)
  }

  /** What the caller should be given for the last write: nothing for a negative entry, null for undefined. */
  function Due(w: Written): Served {
    ServedValue(if w.kind == KindEmpty then Undefined else if w.value == Undefined then NullValue else w.value)
  }

  /** A layer above the one that answered is filled with its entry, for the entry's remaining life. */
  function Filled(layer: Layer, k: Key, stored: Stored, fallback: Option<real>, layerTtl: Option<real>,
                  now: real): Layer {
    var remaining := AsReal(RemainingTtl(stored, now, now));
    LayerSet(layer, k, stored, if remaining.Some? then remaining else fallback, layerTtl, now)
  }

  /** A layer that did not answer keeps its entry only if that is neither lapsed nor expired. */
  function Swept(layer: Layer, k: Key, now: real): Layer {
    if k in layer && (Lapsed(layer[k], now) || Resolve(layer[k].stored, now, now) == Expired) then layer - {k}
    else layer
  }

  /** An entry holds the value of the last write, and its envelope is accepted if that write was sound. */
  ghost predicate Carries(stored: Stored, w: Written, clock: real) {
    && stored.Wrapped? && stored.envelope.kind == w.kind && stored.envelope.value == w.value
    && (w.sound ==> IsEnvelope(stored.envelope, clock))
  }

  ghost predicate LayerCoherent(layer: Layer, latest: map<Key, Written>, clock: real) {
    forall k :: k in layer ==> k in latest && Carries(layer[k].stored, latest[k], clock)
  }

  ghost predicate AllSound(kind: Kind, value: Value, windows: seq<Windows>) {
    forall i :: 0 <= i < |windows| ==> Sound(OptionsFor(kind, value, windows[i]))
  }

  /** A layer has the same entry for a key as another, or neither has one. */
  predicate SameCell(a: Layer, b: Layer, k: Key) {
    (k in a <==> k in b) && (k in a ==> a[k] == b[k])
  }

  ghost predicate SameBut(a: Layer, b: Layer, k: Key) {
    forall j :: j != k ==> SameCell(a, b, j)
  }

  /** Sweeping a layer takes exactly an entry that it cannot serve, even stale. */
  lemma SweptKeeps(layer: Layer, k: Key, now: real)
    ensures SameBut(Swept(layer, k, now), layer, k)
    ensures k in Swept(layer, k, now) <==> Serves(layer, k, now, false)
    ensures k in Swept(layer, k, now) ==> Swept(layer, k, now) == layer
  {
  }

  /** The reply is the value due exactly when the envelope is accepted. */
  lemma ReplyIsDue(stored: Stored, w: Written, clock: real)
    requires Carries(stored, w, clock)
    ensures Reply(stored, clock) == Due(w) <==> Accepted(stored, clock)
    ensures w.sound ==> Reply(stored, clock) == Due(w)
  {
  }

  /** Filling copies an entry of the same write, so it carries the same value. */
  lemma FilledCoherent(layer: Layer, latest: map<Key, Written>, clock: real, k: Key, stored: Stored,
                       fallback: Option<real>, layerTtl: Option<real>)
    requires LayerCoherent(layer, latest, clock) && k in latest && Carries(stored, latest[k], clock)
    ensures LayerCoherent(Filled(layer, k, stored, fallback, layerTtl, clock), latest, clock)
  {
  }

  lemma SetInCoherent(layer: Layer, latest: map<Key, Written>, clock: real, k: Key, o: Options, layerTtl: Option<real>,
                      sound: bool)
    requires clock > 0.0 && LayerCoherent(layer, latest, clock) && (sound ==> Sound(o))
    ensures LayerCoherent(SetIn(layer, k, o, layerTtl, clock), latest[k := Written(o.kind, o.value, sound)], clock)
  {
    CreatedIsAccepted(o, clock);
  }

  /** Sweeping only removes, and what answers is not swept. */
  lemma SweptCoherent(layer: Layer, latest: map<Key, Written>, clock: real, k: Key)
    requires LayerCoherent(layer, latest, clock)
    ensures LayerCoherent(Swept(layer, k, clock), latest, clock)
  {
  }

  /** Soft invalidation of a key in one layer. */
  function ExpiredIn(layer: Layer, k: Key, layerTtl: Option<real>, now: real): Layer {
    var (after, stored) := LayerRead(layer, k, now);
    if stored.None? || !Accepted(stored.value, now) then after
    else
      var expired := StoredValue.Expire(stored.value, now, now);
      LayerSet(after, k, expired, AsReal(RemainingTtl(expired, now, now)), layerTtl, now)
  }

  lemma ExpiredInCoherent(layer: Layer, latest: map<Key, Written>, clock: real, k: Key, layerTtl: Option<real>)
    requires LayerCoherent(layer, latest, clock)
    ensures LayerCoherent(ExpiredIn(layer, k, layerTtl, clock), latest, clock)
  {
    if k in layer {
      ExpireCarries(layer[k].stored, latest[k], clock);
    }
  }

  lemma ExpireCarries(stored: Stored, w: Written, clock: real)
    requires Carries(stored, w, clock)
    ensures Carries(StoredValue.Expire(stored, clock, clock), w, clock)
    ensures w.sound ==> Resolve(StoredValue.Expire(stored, clock, clock), clock, clock) != Fresh
  {
    if Accepted(stored, clock) {
      ExpireEndsFreshness(stored.envelope, clock, clock);
    }
  }

  /** After soft invalidation no layer serves the key as fresh. */
  lemma ExpiredIsNotFresh(layer: Layer, latest: map<Key, Written>, clock: real, k: Key, layerTtl: Option<real>)
    requires LayerCoherent(layer, latest, clock) && k in latest && latest[k].sound
    ensures !Serves(ExpiredIn(layer, k, layerTtl, clock), k, clock, true)
  {
    if k in layer {
      ExpireCarries(layer[k].stored, latest[k], clock);
    }
  }

  /** The later of now and the ends of the stale windows. */
  function LastOpen(e: Envelope, now: real): real {
    var a := if e.staleUntil.Some? && e.staleUntil.value > now then e.staleUntil.value else now;
    if e.errorUntil.Some? && e.errorUntil.value > a then e.errorUntil.value else a
  }

  /** A layer has an unlapsed entry with a stale window still open. */
  predicate HasOpenWindow(layer: Layer, k: Key, now: real) {
    && k in layer && (layer[k].expiresAt.Some? ==> now < layer[k].expiresAt.value) && layer[k].stored.Wrapped?
    && LastOpen(layer[k].stored.envelope, now) > now
  }

  /** What a soft invalidation makes of a layer: other keys keep their entries.  A lapsed entry is gone, one that is not
      accepted stays as it is, and an accepted one stays with its kind, its value and its windows until, to the
      millisecond, its last open window ends; freshness alone is over. */
  ghost predicate SoftExpired(was: Layer, after: Layer, k: Key, now: real) {
    && SameBut(after, was, k)
    && (k in after <==> k in was && (was[k].expiresAt.Some? ==> now < was[k].expiresAt.value))
    && (k in after && !Accepted(was[k].stored, now) ==> after[k] == was[k])
    && (k in after && Accepted(was[k].stored, now) ==> StillThere(was[k], after[k], now))
  }

  ghost predicate StillThere(was: Cell, after: Cell, now: real)
    requires was.stored.Wrapped?
  {
    && after.stored.Wrapped?
    && var e, x := was.stored.envelope, after.stored.envelope;
       && x.kind == e.kind && x.value == e.value
       && x.staleUntil == e.staleUntil && x.errorUntil == e.errorUntil
       && x.freshTtlMs == e.freshTtlMs && x.staleWhileRevalidateMs == e.staleWhileRevalidateMs
       && x.staleIfErrorMs == e.staleIfErrorMs
       && x.freshUntil.Some? && x.freshUntil.value <= now && Accepted(after.stored, now)
       && after.expiresAt.Some? && LastOpen(e, now) <= after.expiresAt.value <= LastOpen(e, now) + 1.0
  }

  lemma ExpiredInIsSoft(layer: Layer, k: Key, layerTtl: Option<real>, now: real)
    ensures SoftExpired(layer, ExpiredIn(layer, k, layerTtl, now), k, now)
  {
    if k in layer && !Lapsed(layer[k], now) && Accepted(layer[k].stored, now) {
      ExpiredCell(layer[k].stored.envelope, layerTtl, now);
    }
  }

  /** The cell that a soft invalidation writes. */
  lemma ExpiredCell(e: Envelope, layerTtl: Option<real>, now: real)
    requires IsEnvelope(e, now)
    ensures var x := StoredValue.Expire(Wrapped(e), now, now);
            var cell := Cell(x, Expiry(AsReal(RemainingTtl(x, now, now)), layerTtl, now));
            forall until :: StillThere(Cell(Wrapped(e), until), cell, now)
  {
    ExpireEndsFreshness(e, now, now);
    var x := StoredValue.Expire(Wrapped(e), now, now).envelope;
    LastDeadline(e, x, now);
    CeilIsLeast(MaxExpiry(x).value - now);
  }

  lemma LastDeadline(e: Envelope, x: Envelope, now: real)
    requires x.freshUntil.Some? && x.freshUntil.value <= now
    requires x.staleUntil == e.staleUntil && x.errorUntil == e.errorUntil
    ensures MaxExpiry(x).Some?
    ensures if LastOpen(e, now) > now then MaxExpiry(x).value == LastOpen(e, now) else MaxExpiry(x).value <= now
  {
  }

  /** So a soft invalidation leaves a sound entry that can be served stale, and only stale, exactly if a window of it is
      still open. */
  lemma SoftExpiredServesIff(was: Layer, after: Layer, latest: map<Key, Written>, k: Key, now: real)
    requires SoftExpired(was, after, k, now) && LayerCoherent(was, latest, now) && k in latest && latest[k].sound
    ensures Serves(after, k, now, false) <==> HasOpenWindow(was, k, now)
    ensures !Serves(after, k, now, true)
  {
  }

  /** And a read right after it gives the value due exactly if some layer had such an entry. */
  lemma StaleIsServedIff(was: seq<Layer>, after: seq<Layer>, latest: map<Key, Written>, k: Key, now: real)
    requires |was| == |after| && k in latest && latest[k].sound
    requires forall i :: 0 <= i < |was| ==> LayerCoherent(was[i], latest, now) && LayerCoherent(after[i], latest, now)
    requires forall i :: 0 <= i < |was| ==> SoftExpired(was[i], after[i], k, now)
    ensures var h := FirstHit(after, k, now, false);
            && (h < |after| <==> exists i :: 0 <= i < |was| && HasOpenWindow(was[i], k, now))
            && (h < |after| ==> Reply(after[h][k].stored, now) == Due(latest[k]))
  {
    forall i | 0 <= i < |was|
      ensures Serves(after[i], k, now, false) <==> HasOpenWindow(was[i], k, now)
    {
      SoftExpiredServesIff(was[i], after[i], latest, k, now);
    }
    var h := FirstHit(after, k, now, false);
    if h < |after| {
      assert LayerCoherent(after[h], latest, now);
      ReplyIsDue(after[h][k].stored, latest[k], now);
    }
  }

  lemma TimeKeepsCoherent(layer: Layer, latest: map<Key, Written>, clock: real, later: real)
    requires LayerCoherent(layer, latest, clock) && clock <= later
    ensures LayerCoherent(layer, latest, later)
  {
    forall k | k in layer && latest[k].sound
      ensures IsEnvelope(layer[k].stored.envelope, later)
    {
      AcceptedForever(layer[k].stored.envelope, clock, later);
    }
  }

  /** A filled layer answers, whatever the entry it was filled with. */
  lemma FilledAnswers(layer: Layer, k: Key, stored: Stored, fallback: Option<real>, layerTtl: Option<real>, now: real)
    requires Resolve(stored, now, now) != Expired
    ensures var after := Filled(layer, k, stored, fallback, layerTtl, now);
            Serves(after, k, now, false) && SameBut(after, layer, k)
  {
  }

  /** No layer loses an entry of another key, or of this key as long as it could be served. */
  ghost predicate Spares(was: seq<Layer>, after: seq<Layer>, k: Key, now: real) {
    && |was| == |after|
    && forall i :: 0 <= i < |was| ==>
                     && SameBut(after[i], was[i], k)
                     && (Serves(was[i], k, now, false) ==> Serves(after[i], k, now, false))
                     && (k in after[i] ==> Serves(after[i], k, now, false) || after[i] == was[i])
  }

  lemma SweptSpares(was: seq<Layer>, after: seq<Layer>, k: Key, now: real)
    requires |was| == |after| && forall i :: 0 <= i < |was| ==> after[i] == Swept(was[i], k, now)
    ensures Spares(was, after, k, now)
  {
    forall i | 0 <= i < |was|
      ensures SameBut(after[i], was[i], k)
      ensures Serves(was[i], k, now, false) ==> Serves(after[i], k, now, false)
      ensures k in after[i] ==> Serves(after[i], k, now, false)
    {
      SweptKeeps(was[i], k, now);
    }
  }

  lemma FilledSpares(was: seq<Layer>, after: seq<Layer>, h: nat, k: Key, stored: Stored, fallbacks: seq<Option<real>>,
                     defaults: seq<Option<real>>, now: real)
    requires h <= |was| == |after| == |fallbacks| == |defaults| && Resolve(stored, now, now) != Expired
    requires forall i :: 0 <= i < h ==>
                           after[i] == Filled(Swept(was[i], k, now), k, stored, fallbacks[i], defaults[i], now)
    requires forall i :: h <= i < |was| ==> after[i] == was[i]
    ensures Spares(was, after, k, now)
  {
    forall i | 0 <= i < h
      ensures SameBut(after[i], was[i], k) && Serves(after[i], k, now, false)
    {
      FilledAnswers(Swept(was[i], k, now), k, stored, fallbacks[i], defaults[i], now);
    }
  }

  class Stack {
    /** `defaultTtl` of every layer. */
    const defaults: seq<Option<real>>
    var layers: seq<Layer>
    var clock: real
    ghost var latest: map<Key, Written>

    /** Every entry of every layer carries the latest value of its key. */
    ghost predicate Coherent()
      reads this
    {
      && clock > 0.0 && |layers| == |defaults|
      && forall i :: 0 <= i < |layers| ==> LayerCoherent(layers[i], latest, clock)
    }

    constructor (defaults: seq<Option<real>>, now: real)
      requires now > 0.0
      ensures Coherent() && this.defaults == defaults && latest == map[]
    {
      this.defaults := defaults;
      layers := seq(|defaults|, i => map[]);
      clock := now;
      latest := map[];
    }

    method Tick(now: real)
      requires Coherent() && clock <= now
      modifies this`clock
      ensures Coherent() && clock == now
    {
      forall i | 0 <= i < |layers| ensures LayerCoherent(layers[i], latest, now) {
        TimeKeepsCoherent(layers[i], latest, clock, now);
      }
      clock := now;
    }

    /** `writeAcrossLayers` without a write-behind layer. */
    method Set(k: Key, kind: Kind, value: Value, windows: seq<Windows>)
      requires Coherent() && |windows| == |layers|
      modifies this`layers, this`latest
      ensures Coherent() && latest == old(latest)[k := Written(kind, value, AllSound(kind, value, windows))]
      ensures forall i :: 0 <= i < |layers| ==>
                && layers[i] == SetIn(old(layers)[i], k, OptionsFor(kind, value, windows[i]), defaults[i], clock)
                && SameBut(layers[i], old(layers)[i], k)
    {
      var n := 0;
      while n < |layers|
        invariant n <= |layers| == |old(layers)|
        invariant forall i :: n <= i < |layers| ==> layers[i] == old(layers)[i]
        invariant forall i :: 0 <= i < n ==>
                    layers[i] == SetIn(old(layers)[i], k, OptionsFor(kind, value, windows[i]), defaults[i], clock)
        invariant latest == old(latest)
      {
        layers := layers[n := SetIn(layers[n], k, OptionsFor(kind, value, windows[n]), defaults[n], clock)];
        n := n + 1;
      }
      latest := latest[k := Written(kind, value, AllSound(kind, value, windows))];
      forall i | 0 <= i < |layers| ensures LayerCoherent(layers[i], latest, clock) {
        SetInCoherent(old(layers)[i], old(latest), clock, k, OptionsFor(kind, value, windows[i]), defaults[i],
                      latest[k].sound);
      }
    }

    /** `readFromLayers`: the value due if some layer retains one, and nothing otherwise. */
    method Get(k: Key, freshOnly: bool, fallbacks: seq<Option<real>>) returns (hit: Option<Served>)
      requires Coherent() && |fallbacks| == |layers|
      modifies this`layers
      ensures Coherent()
      ensures var h := FirstHit(old(layers), k, clock, freshOnly);
              && |layers| == |old(layers)|
              && (hit.Some? <==> h < |layers|)
              && (hit.Some? ==> Answered(k, hit.value, old(layers), h, fallbacks))
              && (hit.None? ==> forall i :: 0 <= i < |layers| ==> layers[i] == Swept(old(layers)[i], k, clock))
      ensures Spares(old(layers), layers, k, clock)
    {
      var index, stored := FindHit(k, freshOnly);
      forall i | 0 <= i < |layers| ensures LayerCoherent(layers[i], latest, clock) {
        SweptCoherent(old(layers)[i], latest, clock, k);
      }
      if stored.None? {
        SweptSpares(old(layers), layers, k, clock);
        return None;
      }
      assert LayerCoherent(layers[index], latest, clock);
      ReplyIsDue(stored.value, latest[k], clock);
      Backfill(k, stored.value, index, fallbacks);
      FilledSpares(old(layers), layers, index, k, stored.value, fallbacks, defaults, clock);
      return Some(Reply(stored.value, clock));
    }

    /** The loop over the layers: stops at the first that answers, deleting lapsed and expired entries before it. */
    method FindHit(k: Key, freshOnly: bool) returns (index: nat, stored: Option<Stored>)
      modifies this`layers
      ensures |layers| == |old(layers)| && index == FirstHit(old(layers), k, clock, freshOnly)
      ensures stored == if index < |layers| then Some(old(layers)[index][k].stored) else None
      ensures forall i :: index <= i < |layers| ==> layers[i] == old(layers)[i]
      ensures forall i :: 0 <= i < index ==> layers[i] == Swept(old(layers)[i], k, clock)
    {
      index := 0;
      while index < |layers|
        invariant index <= FirstHit(old(layers), k, clock, freshOnly) <= |layers| == |old(layers)|
        invariant forall i :: index <= i < |layers| ==> layers[i] == old(layers)[i]
        invariant forall i :: 0 <= i < index ==> layers[i] == Swept(old(layers)[i], k, clock)
      {
        var layer;
        layer, stored := LayerRead(layers[index], k, clock).0, LayerRead(layers[index], k, clock).1;
        if stored.Some? && Resolve(stored.value, clock, clock) != Expired
           && (freshOnly ==> Resolve(stored.value, clock, clock) == Fresh) {
          assert Serves(layers[index], k, clock, freshOnly);
          return;
        }
        layers := layers[index := if stored.Some? && Resolve(stored.value, clock, clock) == Expired then layer - {k}
                                  else layer];
        index := index + 1;
      }
      stored := None;
    }

    /** What a read that layer `h` answers gives and leaves: the value due if the envelope is accepted, its entry
        in every layer above, and the rest as it was. */
    ghost predicate Answered(k: Key, reply: Served, was: seq<Layer>, h: nat, fallbacks: seq<Option<real>>)
      reads this
    {
      && h < |was| == |layers| == |fallbacks| == |defaults| && k in was[h] && k in latest
      && reply == Reply(was[h][k].stored, clock)
      && (reply == Due(latest[k]) <==> Accepted(was[h][k].stored, clock))
      && (latest[k].sound ==> reply == Due(latest[k]))
      && (forall i :: h <= i < |layers| ==> layers[i] == was[i])
      && (forall i :: 0 <= i < h ==>
            layers[i] == Filled(Swept(was[i], k, clock), k, was[h][k].stored, fallbacks[i], defaults[i], clock))
    }

    method Backfill(k: Key, stored: Stored, upTo: nat, fallbacks: seq<Option<real>>)
      requires Coherent() && upTo <= |layers| == |fallbacks|
      requires k in latest && Carries(stored, latest[k], clock)
      modifies this`layers
      ensures Coherent() && |layers| == |old(layers)|
      ensures forall i :: upTo <= i < |layers| ==> layers[i] == old(layers)[i]
      ensures forall i :: 0 <= i < upTo ==>
                  layers[i] == Filled(old(layers)[i], k, stored, fallbacks[i], defaults[i], clock)
    {
      var n := 0;
      while n < upTo
        invariant n <= upTo && Coherent() && |layers| == |old(layers)|
        invariant forall i :: n <= i < |layers| ==> layers[i] == old(layers)[i]
        invariant forall i :: 0 <= i < n ==>
                      layers[i] == Filled(old(layers)[i], k, stored, fallbacks[i], defaults[i], clock)
      {
        FilledCoherent(layers[n], latest, clock, k, stored, fallbacks[n], defaults[n]);
        layers := layers[n := Filled(layers[n], k, stored, fallbacks[n], defaults[n], clock)];
        n := n + 1;
      }
    }

    /** `deleteKeys`: afterwards no layer has the key. */
    method Delete(k: Key)
      requires Coherent()
      modifies this`layers, this`latest
      ensures Coherent() && latest == old(latest) - {k} && |layers| == |old(layers)|
      ensures forall i :: 0 <= i < |layers| ==> layers[i] == old(layers)[i] - {k}
    {
      var n := 0;
      while n < |layers|
        invariant n <= |layers| == |old(layers)| && latest == old(latest)
        invariant forall i :: n <= i < |layers| ==> layers[i] == old(layers)[i]
        invariant forall i :: 0 <= i < n ==> layers[i] == old(layers)[i] - {k}
      {
        layers := layers[n := layers[n] - {k}];
        n := n + 1;
      }
      latest := latest - {k};
    }

    /** `clear`. */
    method Clear()
      requires Coherent()
      modifies this`layers, this`latest
      ensures Coherent() && latest == map[] && |layers| == |old(layers)|
      ensures forall i :: 0 <= i < |layers| ==> layers[i] == map[]
    {
      layers := seq(|layers|, i => map[]);
      latest := map[];
    }

    /** A layer may drop any of its entries at any time. */
    method Evict(i: nat, k: Key)
      requires Coherent() && i < |layers|
      modifies this`layers
      ensures Coherent() && layers == old(layers)[i := old(layers)[i] - {k}]
    {
      layers := layers[i := layers[i] - {k}];
    }

    /** `expireKeysInLayers`: entries keep their value and windows but are no longer fresh, so what can be served
        afterwards is exactly what has a stale window open. */
    method Expire(k: Key) returns (found: bool)
      requires Coherent()
      modifies this`layers
      ensures Coherent() && |layers| == |old(layers)|
      ensures forall i :: 0 <= i < |layers| ==>
                && layers[i] == ExpiredIn(old(layers)[i], k, defaults[i], clock)
                && SoftExpired(old(layers)[i], layers[i], k, clock)
      ensures var h := FirstHit(layers, k, clock, false);
              k in latest && latest[k].sound ==>
                && (h < |layers| <==> exists i :: 0 <= i < |layers| && HasOpenWindow(old(layers)[i], k, clock))
                && (h < |layers| ==> Reply(layers[h][k].stored, clock) == Due(latest[k]))
      ensures found <==> exists i :: 0 <= i < |layers| && k in old(layers)[i] && !Lapsed(old(layers)[i][k], clock)
    {
      found := false;
      var n := 0;
      while n < |layers|
        invariant n <= |layers| == |old(layers)| && Coherent()
        invariant forall i :: n <= i < |layers| ==> layers[i] == old(layers)[i]
        invariant forall i :: 0 <= i < n ==> layers[i] == ExpiredIn(old(layers)[i], k, defaults[i], clock)
        invariant found <==> exists i :: 0 <= i < n && k in old(layers)[i] && !Lapsed(old(layers)[i][k], clock)
      {
        var (layer, stored) := LayerRead(layers[n], k, clock);
        found := found || stored.Some?;
        ExpiredInCoherent(layers[n], latest, clock, k, defaults[n]);
        layers := layers[n := ExpiredIn(layers[n], k, defaults[n], clock)];
        n := n + 1;
      }
      forall i | 0 <= i < |layers| ensures SoftExpired(old(layers)[i], layers[i], k, clock) {
        ExpiredInIsSoft(old(layers)[i], k, defaults[i], clock);
      }
      if k in latest && latest[k].sound {
        StaleIsServedIff(old(layers), layers, latest, k, clock);
      }
    }
  }

  // ---- consequences ----

  /** After a write every layer answers at once, with the value written exactly when the options are sound; a
      stale window without a fresh TTL makes the stack answer with the envelope itself. */
  lemma WrittenIsServedIff(layer: Layer, k: Key, o: Options, layerTtl: Option<real>, now: real)
    requires now > 0.0
    ensures var after := SetIn(layer, k, o, layerTtl, now);
            Serves(after, k, now, true)
            && (Reply(after[k].stored, now) == Due(Written(o.kind, o.value, true)) <==> Sound(o))
  {
    CreatedIsAccepted(o, now);
  }

  /** A layer keeps a sound write for as long as its envelope lives, to the millisecond; without a TTL, for the
      layer's default. */
  lemma WrittenLivesAsLong(layer: Layer, k: Key, o: Options, layerTtl: Option<real>, now: real)
    requires now > 0.0 && Sound(o)
    ensures var cell := SetIn(layer, k, o, layerTtl, now)[k];
            match MaxExpiry(cell.stored.envelope)
            case Some(end) => cell.expiresAt.Some? && end <= cell.expiresAt.value < end + 1.0
            case None => cell.expiresAt == if o.freshTtlMs.None? && layerTtl.Some? && layerTtl.value > 0.0
                                           then Some(now + layerTtl.value) else None
  {
    CreatedIsAccepted(o, now);
    var e := Create(o, now);
    if MaxExpiry(e).Some? {
      RemainingCoversLife(e, now);
    }
  }

  /** Filling a layer makes it serve what the layer below served, and for no longer than the envelope lives. */
  lemma FilledServes(layer: Layer, k: Key, stored: Stored, fallback: Option<real>, layerTtl: Option<real>, now: real)
    requires Accepted(stored, now) && Resolve(stored, now, now) != Expired
    ensures var after := Filled(layer, k, stored, fallback, layerTtl, now);
            && Serves(after, k, now, false) && Reply(after[k].stored, now) == Reply(stored, now)
            && (MaxExpiry(stored.envelope).Some? ==>
                  after[k].expiresAt.Some?
                  && MaxExpiry(stored.envelope).value <= after[k].expiresAt.value
                  && after[k].expiresAt.value < MaxExpiry(stored.envelope).value + 1.0)
            && (MaxExpiry(stored.envelope).None? ==>
                  var ttl := if fallback.Some? then fallback else layerTtl;
                  after[k].expiresAt == if ttl.Some? && ttl.value > 0.0 then Some(now + ttl.value) else None)
  {
    if MaxExpiry(stored.envelope).Some? {
      RemainingCoversLife(stored.envelope, now);
    }
  }
}
