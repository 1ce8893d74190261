/** When a node reports a double publish (internal/gossip/handlers.go). */
module DoublePublish {
  import opened Gossip
  import opened Hex

  /** What onData answers and what it changes, case by case. */
  lemma HandleExactly(rules: Rules, n: Node, env: Envelope, forgotten: set<Digest>)
    ensures var hash, identity := rules.digest(DataKey(env)), rules.digest(IdentityKey(env));
      var (n', verdict) := Handle(rules, n, env, forgotten);
      var again := hash !in n.seen && identity in n.seen && ToLower(env.pubkey) !in rules.localPubkeys;
      && (verdict == Duplicate <==> hash in n.seen)
      && (verdict == Slashed <==> again && Count(n.dupCounts, identity) >= 1 && identity !in n.dupReported)
      && (verdict in {Invalid, Processed} ==> (verdict == Processed <==> env.wellFormed))
      && (verdict != RateLimited)
      && (n'.ingested == if verdict == Processed then n.ingested + [env] else n.ingested)
      && (n'.dupReported == if verdict == Slashed then n.dupReported + {identity} else n.dupReported)
      && (forall d :: Count(n'.dupCounts, d) == Count(n.dupCounts, d) + if again && d == identity then 1 else 0)
      && (verdict in {Duplicate, Slashed} ==> n'.seen == n.seen)
      && (verdict in {Invalid, Processed} && |n.seen + {identity}| < rules.maxSeen ==>
            n'.seen == n.seen + {identity, hash})
      && (verdict in {Invalid, Processed} && |n.seen + {identity}| >= rules.maxSeen ==>
            n'.seen == n.seen + {identity} - forgotten + {hash})
  {
    hide DataKey, IdentityKey, ToLower;
  }

  /** One call of onData: the envelope and what eviction removes, if it runs. */
  datatype Call = Call(env: Envelope, forgotten: set<Digest>)

  /** A node after these calls. */
  function After(rules: Rules, calls: seq<Call>): Node {
    if calls == [] then Node({}, map[], {}, [])
    else
      var last := calls[|calls| - 1];
      Handle(rules, After(rules, calls[..|calls| - 1]), last.env, last.forgotten).0
  }

  function Identity(rules: Rules, c: Call): Digest {
    rules.digest(IdentityKey(c.env))
  }

  function VerdictAt(rules: Rules, calls: seq<Call>, i: nat): Verdict
    requires i < |calls|
  {
    Handle(rules, After(rules, calls[..i]), calls[i].env, calls[i].forgotten).1
  }

  /** The i-th call brings a payload the node does not remember for an identity it does, from another's pubkey. */
  predicate RivalAt(rules: Rules, calls: seq<Call>, i: nat) {
    && i < |calls|
    && rules.digest(DataKey(calls[i].env)) !in After(rules, calls[..i]).seen
    && Identity(rules, calls[i]) in After(rules, calls[..i]).seen
    && ToLower(calls[i].env.pubkey) !in rules.localPubkeys
  }

  /** How many of the first n calls were rivals for this identity. */
  function Rivals(rules: Rules, calls: seq<Call>, n: nat, d: Digest): nat
    requires n <= |calls|
  {
    if n == 0 then 0
    else
      Rivals(rules, calls, n - 1, d) +
      if Identity(rules, calls[n - 1]) == d && RivalAt(rules, calls, n - 1) then 1 else 0
  }

  /** The counter of an identity is the number of rivals so far, and it is reported from the second on. */
  lemma {:induction false} CountersAreRivals(rules: Rules, calls: seq<Call>, n: nat, d: Digest)
    requires n <= |calls|
    ensures Count(After(rules, calls[..n]).dupCounts, d) == Rivals(rules, calls, n, d)
    ensures d in After(rules, calls[..n]).dupReported <==> Rivals(rules, calls, n, d) >= 2
  {
    hide Handle, IdentityKey, DataKey, ToLower;
    if n > 0 {
      CountersAreRivals(rules, calls, n - 1, d);
      var last := calls[n - 1];
      assert calls[..n][..n - 1] == calls[..n - 1];
      HandleExactly(rules, After(rules, calls[..n - 1]), last.env, last.forgotten);
    }
  }

  /** Over any sequence of calls on a fresh node, a double publish is reported exactly at the second rival payload of an
      identity, the third payload in all. */
  lemma ReportedAtSecondRival(rules: Rules, calls: seq<Call>, i: nat)
    requires i < |calls|
    ensures VerdictAt(rules, calls, i) == Slashed <==>
      RivalAt(rules, calls, i) && Rivals(rules, calls, i, Identity(rules, calls[i])) == 1
  {
    hide Handle, IdentityKey, DataKey, ToLower;
    CountersAreRivals(rules, calls, i, Identity(rules, calls[i]));
    HandleExactly(rules, After(rules, calls[..i]), calls[i].env, calls[i].forgotten);
  }

  lemma {:induction false} RivalsGrow(rules: Rules, calls: seq<Call>, i: nat, j: nat, d: Digest)
    requires i <= j <= |calls|
    ensures Rivals(rules, calls, i, d) <= Rivals(rules, calls, j, d)
  {
    hide RivalAt, Identity;
    if i < j {
      RivalsGrow(rules, calls, i, j - 1, d);
    }
  }

  /** Hence an identity is reported at most once, and a pubkey of the node itself never. */
  lemma ReportedOnce(rules: Rules, calls: seq<Call>, i: nat, j: nat)
    requires i < j < |calls|
    requires VerdictAt(rules, calls, i) == Slashed && VerdictAt(rules, calls, j) == Slashed
    ensures Identity(rules, calls[i]) != Identity(rules, calls[j])
    ensures ToLower(calls[i].env.pubkey) !in rules.localPubkeys
  {
    hide Handle, IdentityKey, DataKey, ToLower;
    ReportedAtSecondRival(rules, calls, i);
    ReportedAtSecondRival(rules, calls, j);
    RivalsGrow(rules, calls, i + 1, j, Identity(rules, calls[i]));
  }
}
