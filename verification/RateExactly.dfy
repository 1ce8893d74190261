/** Exactly which requests a token bucket allows (internal/api/auth.go, internal/gossip/manager_seed.go). */
module RateExactly {
  import opened Wrappers
  import opened RateLimit

  lemma AvailableLater(l: Limits, buckets: map<string, Bucket>, key: string, t: real, now: real)
    requires Sound(l) && t <= now
    ensures var later := Available(l, buckets, key, t) + Accrued(l, now - t);
            Available(l, buckets, key, now) == if later > l.burst then l.burst else later
  {
    Accrual(l, 0.0, now - t);
    if key in buckets {
      Accrual(l, t - buckets[key].lastSeen, now - t);
    }
  }

  /** The first events, so many of them, are no later than now. */
  predicate Past(events: seq<Event>, until: nat, now: real) {
    0 < until <= |events| ==> events[until - 1].at <= now
  }

  // What a bucket full at an earlier event would have left: burst, and what
  // accrued since, less what was allowed since.
  ghost function LeftSince(l: Limits, events: seq<Event>, key: string, from: nat, until: nat, now: real): real
    requires from < until <= |events|
  {
    l.burst + Accrued(l, now - events[from].at) - Allowed(l, events, key, from, until) as real
  }

  // A key's bucket is full, or holds what a full one at an earlier event would
  // have left.
  lemma {:induction false} FullOnce(l: Limits, events: seq<Event>, key: string, until: nat, now: real)
      returns (from: nat)
    requires Sound(l) && Chronological(events) && until <= |events| && Past(events, until, now)
    ensures from <= until
    ensures Available(l, Run(l, events[..until]), key, now) ==
            if from == until then l.burst else LeftSince(l, events, key, from, until, now)
    decreases until
  {
    hide Available, Accrued, Run, Allowed;
    if until == 0 {
      from := 0;
      FullWhenNew(l, key, now);
    } else {
      var at := events[until - 1].at;
      from := FullOnce(l, events, key, until - 1, at);
      EventSpends(l, events, key, until);
      AllowedAdds(l, events, key, from, until);
      Accrual(l, 0.0, 0.0);
      AvailableLater(l, Run(l, events[..until]), key, at, now);
      Accrual(l, now - at, at - events[from].at);
      if Available(l, Run(l, events[..until]), key, now) == l.burst {
        from := until;
      }
    }
  }

  lemma FullWhenNew(l: Limits, key: string, now: real)
    ensures forall events: seq<Event> :: Available(l, Run(l, events[..0]), key, now) == l.burst
  {
  }

  lemma AllowedByAvailable(l: Limits, events: seq<Event>, i: nat)
    requires Sound(l) && i < |events| && events[i].Request?
    ensures AllowedAt(l, events, i) <==> Available(l, Run(l, events[..i]), events[i].key, events[i].at) >= 1.0
  {
  }

  lemma OneMoreAllowed(l: Limits, events: seq<Event>, from: nat, i: nat)
    requires from <= i < |events| && events[i].Request? && AllowedAt(l, events, i)
    ensures Allowed(l, events, events[i].key, from, i + 1) == Allowed(l, events, events[i].key, from, i) + 1
  {
    hide AllowedAt;
  }

  /** The requests of the key allowed since an event, and this one, are at most burst and rate for each second since. */
  ghost predicate Within(l: Limits, events: seq<Event>, key: string, from: nat, i: nat) {
    && from <= i < |events|
    && Allowed(l, events, key, from, i) as real + 1.0 <= l.burst + (events[i].at - events[from].at) * l.rate
  }

  lemma AllowedIsWithin(l: Limits, events: seq<Event>, from: nat, i: nat)
    requires Sound(l) && Chronological(events)
    requires from <= i < |events| && events[i].Request? && AllowedAt(l, events, i)
    ensures Within(l, events, events[i].key, from, i)
  {
    hide AllowedAt, Allowed;
    OneMoreAllowed(l, events, from, i);
    WindowAccrual(l, events, events[i].key, from, i + 1);
  }

  lemma RefusedIsNotWithin(l: Limits, events: seq<Event>, i: nat) returns (from: nat)
    requires Sound(l) && Chronological(events)
    requires i < |events| && events[i].Request? && !AllowedAt(l, events, i)
    ensures from < i && !Within(l, events, events[i].key, from, i)
  {
    hide AllowedAt, Allowed, Available, Run;
    AllowedByAvailable(l, events, i);
    from := FullOnce(l, events, events[i].key, i, events[i].at);
  }

  /** A request is allowed exactly when this holds from every earlier event and from itself. */
  lemma AllowedExactly(l: Limits, events: seq<Event>, i: nat)
    requires Sound(l) && Chronological(events)
    requires i < |events| && events[i].Request?
    ensures AllowedAt(l, events, i) <==> forall from: nat :: from <= i ==> Within(l, events, events[i].key, from, i)
  {
    hide AllowedAt, Within, Sound;
    if AllowedAt(l, events, i) {
      forall from: nat | from <= i
        ensures Within(l, events, events[i].key, from, i)
      {
        AllowedIsWithin(l, events, from, i);
      }
    } else {
      var from := RefusedIsNotWithin(l, events, i);
    }
  }

  /** Requests of one key, all at one instant. */
  predicate Simultaneous(events: seq<Event>, key: string, at: real) {
    forall i :: 0 <= i < |events| ==> events[i] == Request(key, at)
  }

  lemma {:induction false} LaterAllowsFewer(l: Limits, events: seq<Event>, key: string, from: nat, until: nat)
    requires from <= until <= |events|
    ensures Allowed(l, events, key, from, until) <= Allowed(l, events, key, 0, until)
    decreases until
  {
    hide AllowedAt;
    if from < until {
      LaterAllowsFewer(l, events, key, from, until - 1);
    }
  }

  lemma SimultaneousAllowed(l: Limits, events: seq<Event>, key: string, at: real, n: nat)
    requires Sound(l) && Simultaneous(events, key, at) && n < |events|
    ensures AllowedAt(l, events, n) <==> (Allowed(l, events, key, 0, n) + 1) as real <= l.burst
  {
    hide AllowedAt, Allowed;
    AllowedExactly(l, events, n);
    forall from: nat | from <= n
      ensures Within(l, events, key, from, n) <==> (Allowed(l, events, key, from, n) + 1) as real <= l.burst
      ensures Allowed(l, events, key, from, n) <= Allowed(l, events, key, 0, n)
    {
      assert events[from].at == events[n].at;
      LaterAllowsFewer(l, events, key, from, n);
    }
    assert Within(l, events, key, 0, n) <==> (Allowed(l, events, key, 0, n) + 1) as real <= l.burst;
  }

  lemma {:induction false} BurstCount(l: Limits, events: seq<Event>, key: string, at: real, n: nat)
    requires Sound(l) && Simultaneous(events, key, at) && n <= |events|
    ensures Allowed(l, events, key, 0, n) == if n <= l.burst.Floor then n else l.burst.Floor
    ensures n < |events| ==> (AllowedAt(l, events, n) <==> n < l.burst.Floor)
  {
    hide AllowedAt;
    if n > 0 {
      BurstCount(l, events, key, at, n - 1);
    }
    if n < |events| {
      SimultaneousAllowed(l, events, key, at, n);
    }
  }

  /** Of requests at one instant on a new key, each limiter allows exactly the first ones, as many as its burst. */
  lemma FullBurst(rate: int, events: seq<Event>, key: string, at: real, n: nat)
    requires Simultaneous(events, key, at) && n < |events|
    ensures AllowedAt(HttpLimits(rate), events, n) <==> n < if rate <= 0 then 100 else if rate < 10 then 10 else rate
    ensures AllowedAt(PEER_LIMITS, events, n) <==> n < 100
  {
    hide AllowedAt;
    LimitsAreSound(rate);
    BurstCount(HttpLimits(rate), events, key, at, n);
    BurstCount(PEER_LIMITS, events, key, at, n);
  }
}
