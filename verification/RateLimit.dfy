/** The two token-bucket limiters: HTTP requests (internal/api/auth.go) and
    mesh peers (internal/gossip/manager_seed.go). Times are seconds. */
module RateLimit {
  import opened Wrappers

  datatype Bucket = Bucket(tokens: real, lastSeen: real)

  /** Tokens a second, and the most a bucket holds. */
  datatype Limits = Limits(rate: real, burst: real)

  /** Idle time after which the HTTP limiter forgets a key. */
  const CLEANUP: real := 300.0

  /** NewRateLimiter's choice of limits. */
  function HttpLimits(rate: int): Limits {
    var r := if rate <= 0 then 100 else rate;
    Limits(r as real, (if r < 10 then 10 else r) as real)
  }

  const PEER_LIMITS := Limits(30.0, 100.0)

  /** The tokens that accrue in a time. */
  function Accrued(l: Limits, elapsed: real): real {
    elapsed * l.rate
  }

  /** The tokens in a bucket at a later time. */
  function Refilled(l: Limits, b: Bucket, now: real): real {
    var tokens := b.tokens + Accrued(l, now - b.lastSeen);
    if tokens > l.burst then l.burst else tokens
  }

  /** One request: the bucket it leaves, and whether it is allowed. */
  function Decide(l: Limits, b: Option<Bucket>, now: real): (Bucket, bool) {
    match b
    case None => (Bucket(l.burst - 1.0, now), true)
    case Some(b) =>
      var tokens := Refilled(l, b, now);
      if tokens < 1.0 then (Bucket(tokens, now), false) else (Bucket(tokens - 1.0, now), true)
  }

  function Lookup(buckets: map<string, Bucket>, key: string): Option<Bucket> {
    if key in buckets then Some(buckets[key]) else None
  }

  predicate Stale(b: Bucket, now: real) {
    b.lastSeen < now - CLEANUP
  }

  function Evicted(buckets: map<string, Bucket>, now: real): map<string, Bucket> {
    map k | k in buckets && !Stale(buckets[k], now) :: buckets[k]
  }

  class RateLimiter {
    const limits: Limits
    var buckets: map<string, Bucket>

    constructor (rate: int)
      ensures limits.rate == if rate <= 0 then 100.0 else rate as real
      ensures limits.burst == if limits.rate < 10.0 then 10.0 else limits.rate
      ensures limits == HttpLimits(rate) && buckets == map[]
    {
      limits := HttpLimits(rate);
      buckets := map[];
    }

    method Allow(key: string, now: real) returns (allowed: bool)
      modifies this
      ensures var (b, ok) := Decide(limits, Lookup(old(buckets), key), now);
              allowed == ok && buckets == old(buckets)[key := b]
    {
      if key !in buckets {
        buckets := buckets[key := Bucket(limits.burst - 1.0, now)];
        return true;
      }
      var b := buckets[key];
      var tokens := b.tokens + Accrued(limits, now - b.lastSeen);
      if tokens > limits.burst {
        tokens := limits.burst;
      }
      if tokens < 1.0 {
        buckets := buckets[key := Bucket(tokens, now)];
        return false;
      }
      buckets := buckets[key := Bucket(tokens - 1.0, now)];
      return true;
    }

    /** One tick of evictLoop. */
    method EvictStale(now: real)
      modifies this
      ensures forall k :: k in buckets <==> k in old(buckets) && old(buckets)[k].lastSeen >= now - 300.0
      ensures forall k :: k in buckets ==> buckets[k] == old(buckets)[k]
      ensures buckets == Evicted(old(buckets), now)
    {
      var rest := buckets.Keys;
      while rest != {}
        invariant rest <= old(buckets).Keys
        invariant buckets == map k | k in old(buckets) && (k in rest || !Stale(old(buckets)[k], now)) :: old(buckets)[k]
        decreases rest
      {
        var k :| k in rest;
        rest := rest - {k};
        if Stale(buckets[k], now) {
          buckets := buckets - {k};
        }
      }
    }
  }

  /** A mesh peer's bucket, its drops since the last warning, and when that was. */
  datatype PeerRate = PeerRate(bucket: Bucket, dropCount: nat, lastWarnAt: Option<real>)

  const DROPS_PER_WARNING: nat := 200
  const WARNING_INTERVAL: real := 600.0

  predicate WarnDue(p: PeerRate, now: real) {
    p.dropCount >= DROPS_PER_WARNING && (p.lastWarnAt.None? || now - p.lastWarnAt.value > WARNING_INTERVAL)
  }

  /** One message of a peer: its new record, whether it is allowed, and whether a warning is broadcast. */
  function PeerStep(l: Limits, before: Option<PeerRate>, now: real): (PeerRate, bool, bool) {
    match before
    case None => (PeerRate(Decide(l, None, now).0, 0, None), true, false)
    case Some(p) =>
      var (b, ok) := Decide(l, Some(p.bucket), now);
      var dropped := p.(bucket := b, dropCount := p.dropCount + 1);
      if ok then (p.(bucket := b), true, false)
      else if WarnDue(dropped, now) then (dropped.(dropCount := 0, lastWarnAt := Some(now)), false, true)
      else (dropped, false, false)
  }

  class PeerLimiter {
    const limits: Limits
    var peers: map<string, PeerRate>

    constructor ()
      ensures limits == Limits(30.0, 100.0) && peers == map[]
    {
      limits := PEER_LIMITS;
      peers := map[];
    }

    /** allowPeerMessage; warn says that a spam warning is broadcast. */
    method AllowPeerMessage(peer: string, now: real) returns (allowed: bool, warn: bool)
      modifies this
      ensures peers.Keys == old(peers).Keys + {peer} && forall p :: p in old(peers) && p != peer ==>
        peers[p] == old(peers)[p]
      ensures (peers[peer], allowed, warn) ==
              PeerStep(limits, if peer in old(peers) then Some(old(peers)[peer]) else None, now)
      ensures warn <==>
        && !allowed && peer in old(peers) && old(peers)[peer].dropCount + 1 >= 200
        && (old(peers)[peer].lastWarnAt.Some? ==> now - old(peers)[peer].lastWarnAt.value > 600.0)
      ensures peer !in old(peers) ==> peers[peer].dropCount == 0 && peers[peer].lastWarnAt == None
      ensures peer in old(peers) ==>
        var before := old(peers)[peer];
        && peers[peer].dropCount == (if warn then 0 else before.dropCount + if allowed then 0 else 1)
        && peers[peer].lastWarnAt == (if warn then Some(now) else before.lastWarnAt)
    {
      warn := false;
      if peer !in peers {
        peers := peers[peer := PeerRate(Bucket(limits.burst - 1.0, now), 0, None)];
        return true, false;
      }
      var p := peers[peer];
      var tokens := p.bucket.tokens + Accrued(limits, now - p.bucket.lastSeen);
      if tokens > limits.burst {
        tokens := limits.burst;
      }
      if tokens < 1.0 {
        p := PeerRate(Bucket(tokens, now), p.dropCount + 1, p.lastWarnAt);
        if WarnDue(p, now) {
          p := p.(dropCount := 0, lastWarnAt := Some(now));
          warn := true;
        }
        peers := peers[peer := p];
        return false, warn;
      }
      peers := peers[peer := p.(bucket := Bucket(tokens - 1.0, now))];
      return true, false;
    }
  }

  // ------------------------------------------------------------------ runs

  datatype Event = Request(key: string, at: real) | Evict(at: real)

  /** The buckets after a run. */
  function Run(l: Limits, events: seq<Event>): map<string, Bucket> {
    if events == [] then map[]
    else
      var before := Run(l, events[..|events| - 1]);
      match events[|events| - 1]
      case Request(key, at) => before[key := Decide(l, Lookup(before, key), at).0]
      case Evict(at) => Evicted(before, at)
  }

  predicate AllowedAt(l: Limits, events: seq<Event>, i: nat)
    requires i < |events| && events[i].Request?
  {
    Decide(l, Lookup(Run(l, events[..i]), events[i].key), events[i].at).1
  }

  ghost predicate Chronological(events: seq<Event>) {
    forall i, j :: 0 <= i <= j < |events| ==> events[i].at <= events[j].at
  }

  /** Positive limits under which a bucket idle for the cleanup time is full again. */
  predicate Sound(l: Limits) {
    l.rate > 0.0 && 1.0 <= l.burst <= CLEANUP * l.rate
  }

  /** Both limiters have such limits. */
  lemma LimitsAreSound(rate: int)
    ensures Sound(HttpLimits(rate)) && Sound(PEER_LIMITS)
  {
  }

  /** Every stored bucket holds between zero and burst tokens and was seen no later than now. */
  ghost predicate InRange(l: Limits, buckets: map<string, Bucket>, now: real) {
    forall k :: k in buckets ==> 0.0 <= buckets[k].tokens <= l.burst && buckets[k].lastSeen <= now
  }

  lemma Accrual(l: Limits, a: real, b: real)
    requires l.rate > 0.0
    ensures a <= b ==> Accrued(l, a) <= Accrued(l, b)
    ensures Accrued(l, a + b) == Accrued(l, a) + Accrued(l, b)
    ensures Accrued(l, 0.0) == 0.0
  {
  }

  lemma DecideInRange(l: Limits, b: Option<Bucket>, now: real)
    requires Sound(l) && (b.Some? ==> 0.0 <= b.value.tokens <= l.burst && b.value.lastSeen <= now)
    ensures 0.0 <= Decide(l, b, now).0.tokens <= l.burst && Decide(l, b, now).0.lastSeen == now
  {
    if b.Some? {
      Accrual(l, 0.0, now - b.value.lastSeen);
    }
  }

  lemma {:induction false} RunInRange(l: Limits, events: seq<Event>, now: real)
    requires Sound(l) && Chronological(events)
    requires events == [] || events[|events| - 1].at <= now
    ensures InRange(l, Run(l, events), now)
  {
    if events != [] {
      var init, last := events[..|events| - 1], events[|events| - 1];
      RunInRange(l, init, last.at);
      if last.Request? {
        DecideInRange(l, Lookup(Run(l, init), last.key), last.at);
      }
    }
  }

  // ------------------------------------------------------- the window bound

  /** The tokens key could draw on at a time: a key with no bucket counts as full. */
  function Available(l: Limits, buckets: map<string, Bucket>, key: string, now: real): real {
    if key in buckets then Refilled(l, buckets[key], now) else l.burst
  }

  /** The requests of a key allowed among the events from..until. */
  function Allowed(l: Limits, events: seq<Event>, key: string, from: nat, until: nat): nat
    requires from <= until <= |events|
    decreases until
  {
    if from == until then 0
    else Allowed(l, events, key, from, until - 1) +
         if events[until - 1].Request? && events[until - 1].key == key && AllowedAt(l, events, until - 1) then 1 else 0
  }

  lemma AvailableGrows(l: Limits, buckets: map<string, Bucket>, key: string, t: real, now: real)
    requires Sound(l) && t <= now
    ensures Available(l, buckets, key, now) <= Available(l, buckets, key, t) + Accrued(l, now - t)
    ensures Available(l, buckets, key, t) <= l.burst
  {
    Accrual(l, 0.0, now - t);
    if key in buckets {
      var b := buckets[key];
      Accrual(l, t - b.lastSeen, now - t);
    }
  }

  // A stale bucket is full, so forgetting it changes nothing.
  lemma EvictionKeepsAvailable(l: Limits, buckets: map<string, Bucket>, key: string, now: real, later: real)
    requires Sound(l) && InRange(l, buckets, now) && now <= later
    ensures Available(l, Evicted(buckets, now), key, later) == Available(l, buckets, key, later)
  {
    if key in buckets && Stale(buckets[key], now) {
      var b := buckets[key];
      Accrual(l, CLEANUP, later - b.lastSeen);
    }
  }

  // An allowed request takes one token of its own key.
  lemma RequestSpends(l: Limits, buckets: map<string, Bucket>, k: string, key: string, now: real)
    requires Sound(l) && InRange(l, buckets, now)
    ensures var (b, ok) := Decide(l, Lookup(buckets, k), now);
            Available(l, buckets[k := b], key, now) ==
            Available(l, buckets, key, now) - if ok && k == key then 1.0 else 0.0
  {
    Accrual(l, 0.0, 0.0);
    DecideInRange(l, Lookup(buckets, k), now);
  }

  // One event spends a token if it is an allowed request of the key.
  lemma EventSpends(l: Limits, events: seq<Event>, key: string, until: nat)
    requires Sound(l) && Chronological(events) && 0 < until <= |events|
    ensures var at := events[until - 1].at;
            Available(l, Run(l, events[..until]), key, at) ==
            Available(l, Run(l, events[..until - 1]), key, at) - Allowed(l, events, key, until - 1, until) as real
  {
    hide Available, Accrued, Decide, InRange, Refilled, Evicted, Lookup;
    var at, before := events[until - 1].at, Run(l, events[..until - 1]);
    assert events[..until][..until - 1] == events[..until - 1];
    RunInRange(l, events[..until - 1], at);
    match events[until - 1]
    case Request(k, _) => RequestSpends(l, before, k, key, at);
    case Evict(_) => EvictionKeepsAvailable(l, before, key, at, at);
  }

  lemma {:induction false} AllowedAdds(l: Limits, events: seq<Event>, key: string, from: nat, until: nat)
    requires from < until <= |events|
    ensures Allowed(l, events, key, from, until) ==
            Allowed(l, events, key, from, until - 1) + Allowed(l, events, key, until - 1, until)
  {
    hide AllowedAt;
  }

  // Within a window the allowed requests and the tokens left never exceed
  // burst and what accrues.
  lemma {:induction false} WindowBudget(l: Limits, events: seq<Event>, key: string, from: nat, until: nat)
    requires Sound(l) && Chronological(events)
    requires from < until <= |events|
    ensures var now := events[until - 1].at;
            Allowed(l, events, key, from, until) as real + Available(l, Run(l, events[..until]), key, now)
              <= l.burst + Accrued(l, now - events[from].at)
    decreases until
  {
    hide Available, Accrued, Run, Allowed;
    var now := events[until - 1].at;
    EventSpends(l, events, key, until);
    var before := Run(l, events[..until - 1]);
    if from == until - 1 {
      Accrual(l, 0.0, 0.0);
      AvailableGrows(l, before, key, now, now);
    } else {
      WindowBudget(l, events, key, from, until - 1);
      AllowedAdds(l, events, key, from, until);
      AvailableGrows(l, before, key, events[until - 2].at, now);
      Accrual(l, now - events[until - 2].at, events[until - 2].at - events[from].at);
    }
  }

  lemma WindowAccrual(l: Limits, events: seq<Event>, key: string, from: nat, until: nat)
    requires Sound(l) && Chronological(events)
    requires from < until <= |events|
    ensures Allowed(l, events, key, from, until) as real <= l.burst + Accrued(l, events[until - 1].at - events[from].at)
  {
    hide Available, Accrued, Allowed, Run, InRange;
    WindowBudget(l, events, key, from, until);
    RunInRange(l, events[..until], events[until - 1].at);
    AvailableIsNonNegative(l, Run(l, events[..until]), key, events[until - 1].at);
  }

  /** In any window of a run, whatever is evicted meanwhile, a key is allowed at most burst requests plus rate for
      each second of the window. */
  lemma WindowBound(l: Limits, events: seq<Event>, key: string, from: nat, until: nat)
    requires Sound(l) && Chronological(events)
    requires from < until <= |events|
    ensures Allowed(l, events, key, from, until) as real <=
            l.burst + (events[until - 1].at - events[from].at) * l.rate
  {
    hide Allowed, Sound;
    WindowAccrual(l, events, key, from, until);
  }

  lemma AvailableIsNonNegative(l: Limits, buckets: map<string, Bucket>, key: string, now: real)
    requires Sound(l) && InRange(l, buckets, now)
    ensures 0.0 <= Available(l, buckets, key, now) <= l.burst
  {
    if key in buckets {
      Accrual(l, 0.0, now - buckets[key].lastSeen);
    }
  }
}
