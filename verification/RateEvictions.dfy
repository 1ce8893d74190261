/** Forgetting stale buckets changes no answer of the limiter (internal/api/auth.go). */
module RateEvictions {
  import opened Wrappers
  import opened RateLimit

  /** The run as it would be if nothing were ever evicted. */
  function WithoutEvictions(events: seq<Event>): seq<Event> {
    if events == [] then []
    else
      var init, last := WithoutEvictions(events[..|events| - 1]), events[|events| - 1];
      if last.Evict? then init else init + [last]
  }

  /** The answers of a run, in order. */
  function Answers(l: Limits, events: seq<Event>): seq<bool> {
    if events == [] then []
    else
      var init, last := events[..|events| - 1], events[|events| - 1];
      Answers(l, init) +
      if last.Evict? then [] else [Decide(l, Lookup(Run(l, init), last.key), last.at).1]
  }

  /** The evicting limiter lacks only buckets that are full at every later time. */
  ghost predicate Indistinguishable(l: Limits, evicting: map<string, Bucket>, plain: map<string, Bucket>, now: real) {
    && evicting.Keys <= plain.Keys
    && (forall k :: k in evicting ==> evicting[k] == plain[k])
    && (forall k :: k in plain && k !in evicting ==> 0.0 <= plain[k].tokens && Stale(plain[k], now))
  }

  lemma SameDecision(l: Limits, evicting: map<string, Bucket>, plain: map<string, Bucket>, key: string, now: real)
    requires Sound(l) && Indistinguishable(l, evicting, plain, now)
    ensures Decide(l, Lookup(evicting, key), now) == Decide(l, Lookup(plain, key), now)
  {
    if key in plain && key !in evicting {
      Accrual(l, CLEANUP, now - plain[key].lastSeen);
    }
  }

  lemma {:induction false} EvictingRunsMatch(l: Limits, events: seq<Event>, now: real)
    requires Sound(l) && Chronological(events)
    requires events == [] || events[|events| - 1].at <= now
    ensures Indistinguishable(l, Run(l, events), Run(l, WithoutEvictions(events)), now)
    ensures Answers(l, events) == Answers(l, WithoutEvictions(events))
  {
    hide Decide, InRange, Indistinguishable, Lookup, Evicted;
    if events == [] {
      NothingYet(l, now);
    } else {
      var init, last := events[..|events| - 1], events[|events| - 1];
      var evicting, plain := Run(l, init), Run(l, WithoutEvictions(init));
      EvictingRunsMatch(l, init, last.at);
      RunInRange(l, init, last.at);
      if last.Request? {
        SameDecision(l, evicting, plain, last.key, last.at);
        RequestMatches(l, evicting, plain, last.key, Decide(l, Lookup(plain, last.key), last.at).0, last.at);
        assert (WithoutEvictions(init) + [last])[..|WithoutEvictions(init)|] == WithoutEvictions(init);
      } else {
        EvictionMatches(l, evicting, plain, last.at);
      }
      LaterMatches(l, Run(l, events), Run(l, WithoutEvictions(events)), last.at, now);
    }
  }

  lemma NothingYet(l: Limits, now: real)
    ensures Indistinguishable(l, map[], map[], now)
  {
  }

  lemma RequestMatches(
      l: Limits, evicting: map<string, Bucket>, plain: map<string, Bucket>, key: string, b: Bucket, now: real)
    requires Indistinguishable(l, evicting, plain, now)
    ensures Indistinguishable(l, evicting[key := b], plain[key := b], now)
  {
  }

  // What an eviction removes is stale, and a stale bucket is not needed.
  lemma EvictionMatches(l: Limits, evicting: map<string, Bucket>, plain: map<string, Bucket>, now: real)
    requires Indistinguishable(l, evicting, plain, now) && InRange(l, evicting, now)
    ensures Indistinguishable(l, Evicted(evicting, now), plain, now)
  {
  }

  lemma LaterMatches(l: Limits, evicting: map<string, Bucket>, plain: map<string, Bucket>, now: real, later: real)
    requires Indistinguishable(l, evicting, plain, now) && now <= later
    ensures Indistinguishable(l, evicting, plain, later)
  {
  }

  /** Evicting stale buckets at any times changes no answer of the limiter. */
  lemma EvictionIsUnobservable(rate: int, events: seq<Event>)
    requires Chronological(events)
    ensures Answers(HttpLimits(rate), events) == Answers(HttpLimits(rate), WithoutEvictions(events))
  {
    LimitsAreSound(rate);
    if events != [] {
      EvictingRunsMatch(HttpLimits(rate), events, events[|events| - 1].at);
    }
  }
}
