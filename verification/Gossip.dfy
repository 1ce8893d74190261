/** One mesh node: deduplication, double-publish detection and forwarding
    (internal/gossip/handlers.go, internal/gossip/manager.go). */
module Gossip {
  import opened Hex
  import opened Numbers
  import opened Texts

  type NodeId = string
  type Digest = string

  /** An envelope; wellFormed is what its Validate method answers. */
  datatype Envelope = Envelope(
    topic: string, payload: string, pubkey: string, timestamp: int, noGossip: bool, wellFormed: bool)

  /** The fields HashEnvelope joins. */
  datatype Fields = Fields(topic: string, pubkey: string, payload: string, timestamp: int)

  /** The text HashEnvelope digests. */
  function Text(k: Fields): string {
    k.topic + ":" + k.pubkey + ":" + k.payload + ":" + SignedDecimal(k.timestamp)
  }

  /** The digest of such texts, the node's own pubkeys and the size at which it forgets half of what it has seen. */
  datatype Rules = Rules(digest: string -> Digest, localPubkeys: set<string>, maxSeen: nat)

  function RawFields(env: Envelope): Fields {
    Fields(env.topic, env.pubkey, env.payload, env.timestamp)
  }

  function DataFields(env: Envelope): Fields {
    RawFields(env).(pubkey := ToLower(env.pubkey))
  }

  function IdentityFields(env: Envelope): Fields {
    DataFields(env).(payload := "")
  }

  /** The key BroadcastEnvelope marks. */
  function RawKey(env: Envelope): string {
    Text(RawFields(env))
  }

  /** The key onData looks up. */
  function DataKey(env: Envelope): string {
    Text(DataFields(env))
  }

  /** The key shared by every payload of one topic, pubkey and timestamp. */
  function IdentityKey(env: Envelope): string {
    Text(IdentityFields(env))
  }

  /** The part of a node's state that onData changes; ingested is what it ingested from peers, in order. */
  datatype Node = Node(
    seen: set<Digest>, dupCounts: map<Digest, nat>, dupReported: set<Digest>, ingested: seq<Envelope>)

  datatype Verdict = RateLimited | Duplicate | Slashed | Invalid | Processed

  function Count(m: map<Digest, nat>, d: Digest): nat {
    if d in m then m[d] else 0
  }

  /** Whether onData counts this envelope as one more payload for a known identity. */
  predicate Rival(rules: Rules, n: Node, env: Envelope) {
    rules.digest(IdentityKey(env)) in n.seen && ToLower(env.pubkey) !in rules.localPubkeys
  }

  /** onData once the rate limit is passed; forgotten is what eviction removes, if it runs. */
  function Handle(rules: Rules, n: Node, env: Envelope, forgotten: set<Digest>): (Node, Verdict) {
    var hash, identity := rules.digest(DataKey(env)), rules.digest(IdentityKey(env));
    if hash in n.seen then (n, Duplicate)
    else
      var rival := Rival(rules, n, env);
      var count := Count(n.dupCounts, identity) + 1;
      var slash := rival && count >= 2 && identity !in n.dupReported;
      var counted := n.(
        dupCounts := if rival then n.dupCounts[identity := count] else n.dupCounts,
        dupReported := if slash then n.dupReported + {identity} else n.dupReported);
      if slash then (counted, Slashed)
      else
        var marked := n.seen + {identity};
        var kept := if |marked| >= rules.maxSeen then marked - forgotten else marked;
        var remembered := counted.(seen := kept + {hash});
        if !env.wellFormed then (remembered, Invalid)
        else (remembered.(ingested := n.ingested + [env]), Processed)
  }

  /** BroadcastEnvelope's own mark: the key with the pubkey as it stands. */
  function Marked(rules: Rules, n: Node, env: Envelope): Node {
    if env.noGossip then n else n.(seen := n.seen + {rules.digest(RawKey(env))})
  }

  predicate Interested(interests: map<NodeId, seq<string>>, peer: NodeId, topic: string) {
    peer in interests && exists i :: 0 <= i < |interests[peer]| && interests[peer][i] <= topic
  }

  /** The peers an envelope is forwarded to: connected, interested and not where it came from. */
  function Targets(
      peers: set<NodeId>, interests: map<NodeId, seq<string>>, sender: NodeId, topic: string): set<NodeId> {
    set p | p in peers && p != sender && Interested(interests, p, topic)
  }

  /** An envelope goes to exactly the connected peers, other than its sender, that have declared a prefix of its topic;
      a peer that has declared nothing is sent nothing. */
  lemma TargetsExactly(
      peers: set<NodeId>, interests: map<NodeId, seq<string>>, sender: NodeId, topic: string, p: NodeId)
    ensures p in Targets(peers, interests, sender, topic) <==>
      p in peers && p != sender && p in interests && exists i :: 0 <= i < |interests[p]| && interests[p][i] <= topic
    ensures peers !! interests.Keys ==> Targets(peers, interests, sender, topic) == {}
  {
    assert peers !! interests.Keys ==>
      forall q :: q in Targets(peers, interests, sender, topic) ==> q in peers && q in interests.Keys;
  }

  /** The targets once a peer has declared these prefixes: the others as before, and the peer when a prefix matches. */
  function Redirected(
      before: set<NodeId>, peers: set<NodeId>, peer: NodeId, prefixes: seq<string>, sender: NodeId, topic: string)
      : set<NodeId> {
    before - {peer} +
    if peer in peers && peer != sender && (exists i :: 0 <= i < |prefixes| && prefixes[i] <= topic) then {peer} else {}
  }

  /** A declaration decides, alone, whether its peer is forwarded a topic, and changes nothing for the other peers. */
  lemma DeclarationDecidesForwarding(
      peers: set<NodeId>, interests: map<NodeId, seq<string>>, peer: NodeId, prefixes: seq<string>,
      sender: NodeId, topic: string)
    ensures Targets(peers, interests[peer := prefixes], sender, topic) ==
            Redirected(Targets(peers, interests, sender, topic), peers, peer, prefixes, sender, topic)
  {
    var after := interests[peer := prefixes];
    forall p
      ensures p in Targets(peers, after, sender, topic) <==>
              p in Redirected(Targets(peers, interests, sender, topic), peers, peer, prefixes, sender, topic)
    {
      if p != peer {
        assert Interested(after, p, topic) <==> Interested(interests, p, topic);
      }
    }
  }

  lemma {:induction false} CardinalityIsMonotone<T>(a: set<T>, b: set<T>)
    requires a <= b
    ensures |a| <= |b| && (|a| == |b| ==> a == b)
  {
    if a != {} {
      var x :| x in a;
      CardinalityIsMonotone(a - {x}, b - {x});
    }
  }

  class Manager {
    const rules: Rules
    var node: Node
    var peers: set<NodeId>
    var interests: map<NodeId, seq<string>>

    constructor (rules: Rules)
      ensures this.rules == rules && node == Node({}, map[], {}, []) && peers == {} && interests == map[]
    {
      this.rules := rules;
      node := Node({}, map[], {}, []);
      peers := {};
      interests := map[];
    }

    /** onTopics: from now on the peer is sent exactly the topics one of these prefixes begins. */
    method OnTopics(sender: NodeId, prefixes: seq<string>)
      modifies this`interests
      ensures interests == old(interests)[sender := prefixes]
      ensures forall src, topic ::
        Targets(peers, interests, src, topic) ==
        Redirected(Targets(peers, old(interests), src, topic), peers, sender, prefixes, src, topic)
    {
      interests := interests[sender := prefixes];
      forall src, topic
        ensures Targets(peers, interests, src, topic) ==
                Redirected(Targets(peers, old(interests), src, topic), peers, sender, prefixes, src, topic)
      {
        DeclarationDecidesForwarding(peers, old(interests), sender, prefixes, src, topic);
      }
    }

    method Matches(peer: NodeId, topic: string) returns (hit: bool)
      ensures hit <==> peer in interests && exists i :: 0 <= i < |interests[peer]| && interests[peer][i] <= topic
    {
      var prefixes := if peer in interests then interests[peer] else [];
      for i := 0 to |prefixes|
        invariant forall j :: 0 <= j < i ==> !(prefixes[j] <= topic)
      {
        if prefixes[i] <= topic {
          return true;
        }
      }
      return false;
    }

    method ForwardToInterested(sender: NodeId, topic: string) returns (sent: set<NodeId>)
      ensures forall p :: p in sent <==>
        && p in peers && p != sender && p in interests
        && exists i :: 0 <= i < |interests[p]| && interests[p][i] <= topic
      ensures sent == Targets(peers, interests, sender, topic)
    {
      sent := {};
      var rest := peers;
      while rest != {}
        invariant rest <= peers
        invariant forall p :: p in sent <==>
          && p in peers - rest && p != sender && p in interests
          && exists i :: 0 <= i < |interests[p]| && interests[p][i] <= topic
        decreases rest
      {
        var p :| p in rest;
        rest := rest - {p};
        if p != sender {
          var hit := Matches(p, topic);
          if hit {
            sent := sent + {p};
          }
        }
      }
    }

    /** Go deletes map entries, in an order of its own, until half the limit is gone. */
    method Evict() returns (ghost forgotten: set<Digest>)
      modifies this`node
      ensures node == old(node).(seen := old(node).seen - forgotten)
      ensures forgotten <= old(node).seen
      ensures |forgotten| == Min(|old(node).seen|, Max(1, rules.maxSeen / 2))
    {
      var seen, count := node.seen, 0;
      forgotten := {};
      while seen != {}
        invariant seen == old(node).seen - forgotten && forgotten <= old(node).seen
        invariant count == |forgotten| && (count == 0 || count < rules.maxSeen / 2)
        decreases seen
      {
        var k :| k in seen;
        seen, forgotten := seen - {k}, forgotten + {k};
        count := count + 1;
        if count >= rules.maxSeen / 2 {
          break;
        }
      }
      CardinalityIsMonotone(forgotten, old(node).seen);
      node := node.(seen := seen);
    }

    /** Both keys are marked, with an eviction between the two when the set is full. */
    method Remember(identity: Digest, hash: Digest) returns (ghost forgotten: set<Digest>)
      modifies this`node
      ensures var marked := old(node).seen + {identity};
        var kept := if |marked| >= rules.maxSeen then marked - forgotten else marked;
        node == old(node).(seen := kept + {hash})
      ensures var marked := old(node).seen + {identity};
        && (|marked| < rules.maxSeen ==> forgotten == {})
        && (|marked| >= rules.maxSeen ==>
              forgotten <= marked && |forgotten| == Min(|marked|, Max(1, rules.maxSeen / 2)))
      ensures forgotten != {} ==>
        |old(node).seen| + 1 >= rules.maxSeen && |forgotten| <= Max(1, rules.maxSeen / 2)
    {
      forgotten := {};
      node := node.(seen := node.seen + {identity});
      if |node.seen| >= rules.maxSeen {
        forgotten := Evict();
      }
      node := node.(seen := node.seen + {hash});
    }

    method OnData(sender: NodeId, env: Envelope, allowed: bool)
        returns (verdict: Verdict, sent: set<NodeId>, ghost forgotten: set<Digest>)
      modifies this`node
      ensures !allowed ==> verdict == RateLimited && node == old(node)
      ensures allowed ==> (node, verdict) == Handle(rules, old(node), env, forgotten)
      ensures forgotten != {} ==>
        |old(node).seen| + 1 >= rules.maxSeen && |forgotten| <= Max(1, rules.maxSeen / 2)
      ensures sent == if verdict == Processed && !env.noGossip then Targets(peers, interests, sender, env.topic) else {}
    {
      hide Targets, ToLower, Interested, Count, Text, Max, Min;
      sent, forgotten := {}, {};
      if !allowed {
        return RateLimited, sent, forgotten;
      }
      var pubkey := ToLower(env.pubkey);
      var hash := rules.digest(Text(Fields(env.topic, pubkey, env.payload, env.timestamp)));
      var isLocal := pubkey in rules.localPubkeys;
      var identity := rules.digest(Text(Fields(env.topic, pubkey, "", env.timestamp)));
      if hash in node.seen {
        return Duplicate, sent, forgotten;
      }
      if !isLocal && identity in node.seen {
        var count := Count(node.dupCounts, identity) + 1;
        var alreadyReported := identity in node.dupReported;
        node := node.(dupCounts := node.dupCounts[identity := count]);
        if count >= 2 && !alreadyReported {
          node := node.(dupReported := node.dupReported + {identity});
          return Slashed, sent, forgotten;
        }
      }
      forgotten := Remember(identity, hash);
      if !env.wellFormed {
        return Invalid, sent, forgotten;
      }
      node := node.(ingested := node.ingested + [env]);
      if !env.noGossip {
        sent := ForwardToInterested(sender, env.topic);
      }
      return Processed, sent, forgotten;
    }

    method BroadcastEnvelope(env: Envelope) returns (sent: set<NodeId>)
      modifies this`node
      ensures node == old(node).(seen := old(node).seen +
        if env.noGossip then {} else {rules.digest(Text(Fields(env.topic, env.pubkey, env.payload, env.timestamp)))})
      ensures node == Marked(rules, old(node), env)
      ensures sent == if env.noGossip then {} else Targets(peers, interests, "", env.topic)
    {
      sent := {};
      if env.noGossip {
        return;
      }
      node := node.(seen := node.seen + {rules.digest(RawKey(env))});
      sent := ForwardToInterested("", env.topic);
    }
  }

  /** The key marked is the key looked up exactly when the pubkey is in lower case. */
  lemma RawIsData(env: Envelope)
    ensures RawKey(env) == DataKey(env) <==> ToLower(env.pubkey) == env.pubkey
  {
    var n, p, q := |env.topic| + 1, env.pubkey, ToLower(env.pubkey);
    assert RawKey(env)[n..n + |p|] == p;
    assert DataKey(env)[n..n + |p|] == q;
  }

  /** A broadcaster ignores its own envelope when it comes back exactly when the pubkey was lower case. */
  lemma OwnEchoIgnored(rules: Rules, n: Node, env: Envelope, forgotten: set<Digest>)
    requires !env.noGossip && rules.digest(DataKey(env)) !in n.seen
    requires rules.digest(RawKey(env)) == rules.digest(DataKey(env)) ==> RawKey(env) == DataKey(env)
    ensures Handle(rules, Marked(rules, n, env), env, forgotten).1 == Duplicate <==> ToLower(env.pubkey) == env.pubkey
  {
    RawIsData(env);
    assert Handle(rules, Marked(rules, n, env), env, forgotten).1 == Duplicate
      <==> rules.digest(DataKey(env)) in Marked(rules, n, env).seen;
  }
}
