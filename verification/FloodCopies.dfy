/** How often a link carries an envelope, and how long a flood lasts. */
module FloodCopies {
  import opened Gossip
  import opened Flood
  import opened Hex

  // ----------------------------------------------------------- termination

  function AllLinks(mesh: Mesh): set<(NodeId, NodeId)> {
    set u, v | u in mesh.peers && v in mesh.peers[u] :: (u, v)
  }

  predicate Arrival(mesh: Mesh, ev: Event, d: Digest) {
    !ev.Broadcast? && D(mesh, ev.m.env) == d
  }

  /** How many messages with digest d arrive, handled or dropped, in a run. */
  function Arrivals(mesh: Mesh, events: seq<Event>, d: Digest): nat {
    if events == [] then 0
    else Arrivals(mesh, events[..|events| - 1], d) + if Arrival(mesh, events[|events| - 1], d) then 1 else 0
  }

  /** How many messages the broadcasts of d in a run send. */
  function Offered(mesh: Mesh, events: seq<Event>, d: Digest): nat
    requires WellFormed(mesh)
  {
    if events == [] then 0
    else Offered(mesh, events[..|events| - 1], d) + OfferedBy(mesh, events[|events| - 1], d)
  }

  function OfferedBy(mesh: Mesh, ev: Event, d: Digest): nat
    requires WellFormed(mesh)
  {
    if ev.Broadcast? && ev.at in mesh.peers && D(mesh, ev.env) == d && !ev.env.noGossip
    then |Links(mesh, ev.at, ev.env.topic)|
    else 0
  }

  /** The links out of the nodes that have ingested d. */
  function UsedLinks(mesh: Mesh, nodes: map<NodeId, Node>, d: Digest): set<(NodeId, NodeId)> {
    set u, v | u in mesh.peers && u in nodes && HasIngested(mesh, nodes[u], d) && v in mesh.peers[u] :: (u, v)
  }

  lemma {:induction false} LinksOutCount(u: NodeId, targets: set<NodeId>)
    ensures |set v | v in targets :: (u, v)| == |targets|
  {
    if targets != {} {
      var w :| w in targets;
      LinksOutCount(u, targets - {w});
      assert (set v | v in targets :: (u, v)) == (set v | v in targets - {w} :: (u, v)) + {(u, w)};
    }
  }

  // A node that ingests d for the first time gains its links, and sends over no others.
  lemma IngestingUsesLinks(
      mesh: Mesh, nodes: map<NodeId, Node>, u: NodeId, n': Node, targets: set<NodeId>, d: Digest)
    requires u in nodes && u in mesh.peers && targets <= mesh.peers[u]
    requires !HasIngested(mesh, nodes[u], d) && HasIngested(mesh, n', d)
    ensures |UsedLinks(mesh, nodes, d)| + |targets| <= |UsedLinks(mesh, nodes[u := n'], d)|
  {
    hide HasIngested;
    var gained, before := set v | v in targets :: (u, v), UsedLinks(mesh, nodes, d);
    LinksOutCount(u, targets);
    assert before !! gained;
    CardinalityIsMonotone(before + gained, UsedLinks(mesh, nodes[u := n'], d));
  }

  lemma KeepingUsesLinks(mesh: Mesh, nodes: map<NodeId, Node>, u: NodeId, n': Node, d: Digest)
    requires u in nodes && (HasIngested(mesh, nodes[u], d) ==> HasIngested(mesh, n', d))
    ensures |UsedLinks(mesh, nodes, d)| <= |UsedLinks(mesh, nodes[u := n'], d)|
  {
    hide HasIngested;
    CardinalityIsMonotone(UsedLinks(mesh, nodes, d), UsedLinks(mesh, nodes[u := n'], d));
  }

  lemma HandleIngests(mesh: Mesh, rules: Rules, n: Node, env: Envelope, d: Digest)
    requires rules.digest == mesh.digest && IngestsOnce(mesh, n)
    ensures var (n', verdict) := Handle(rules, n, env, {});
      && (HasIngested(mesh, n, d) ==> HasIngested(mesh, n', d))
      && (verdict == Processed && D(mesh, env) == d ==> !HasIngested(mesh, n, d) && HasIngested(mesh, n', d))
  {
    hide Handle;
    HandleEffect(rules, n, env);
    var (n', verdict) := Handle(rules, n, env, {});
    if HasIngested(mesh, n, d) {
      var i :| 0 <= i < |n.ingested| && D(mesh, n.ingested[i]) == d;
      assert n'.ingested[i] == n.ingested[i];
    }
    if verdict == Processed && D(mesh, env) == d {
      assert n'.ingested[|n.ingested|] == env;
    }
  }

  // One event sends no more copies of d than it offers and the links it newly uses.
  lemma StepSends(mesh: Mesh, net: Net, ev: Event, d: Digest)
    requires WellFormed(mesh) && Safe(mesh, net) && Enabled(mesh, net, ev)
    ensures var after := Step(mesh, net, ev);
      Tally(after.sent, Carries(mesh, d)) + |UsedLinks(mesh, net.nodes, d)| <=
      Tally(net.sent, Carries(mesh, d)) + OfferedBy(mesh, ev, d) + |UsedLinks(mesh, after.nodes, d)|
  {
    hide Handle, Links, HasIngested, UsedLinks, Tally, Carries;
    var out := Output(mesh, net, ev);
    TallyAdd(net.sent, out, Carries(mesh, d));
    match ev
    case Broadcast(u, env) =>
      TallyEmit(mesh, u, if env.noGossip then {} else Links(mesh, u, env.topic), env, "", "", d);
      BroadcastKeepsIngested(mesh, net.nodes[u], Marked(mesh.rules[u], net.nodes[u], env), d);
      KeepingUsesLinks(mesh, net.nodes, u, Marked(mesh.rules[u], net.nodes[u], env), d);
    case Drop(m) =>
    case Deliver(m) =>
      var u := m.dst;
      var (n', verdict) := Handle(mesh.rules[u], net.nodes[u], m.env, {});
      var targets := ForwardedTo(mesh, u, m.src, m.env, verdict);
      TallyEmit(mesh, u, targets, m.env, "", "", d);
      HandleIngests(mesh, mesh.rules[u], net.nodes[u], m.env, d);
      if verdict == Processed && D(mesh, m.env) == d {
        IngestingUsesLinks(mesh, net.nodes, u, n', targets, d);
      } else {
        KeepingUsesLinks(mesh, net.nodes, u, n', d);
      }
  }

  lemma BroadcastKeepsIngested(mesh: Mesh, n: Node, n': Node, d: Digest)
    requires n'.ingested == n.ingested
    ensures HasIngested(mesh, n, d) <==> HasIngested(mesh, n', d)
  {
  }

  lemma StepArrives(mesh: Mesh, net: Net, ev: Event, d: Digest)
    requires WellFormed(mesh) && Enabled(mesh, net, ev)
    ensures Tally(Step(mesh, net, ev).delivered, Carries(mesh, d)) ==
            Tally(net.delivered, Carries(mesh, d)) + if Arrival(mesh, ev, d) then 1 else 0
  {
    hide Output, Handle, Tally;
    if !ev.Broadcast? {
      TallyAdd(net.delivered, multiset{ev.m}, Carries(mesh, d));
      TallyOne(ev.m, Carries(mesh, d));
    }
  }

  lemma {:induction false} RunSends(mesh: Mesh, events: seq<Event>, d: Digest)
    requires WellFormed(mesh) && Legal(mesh, events)
    ensures var net := Run(mesh, events);
      && Safe(mesh, net)
      && Tally(net.delivered, Carries(mesh, d)) == Arrivals(mesh, events, d)
      && Tally(net.sent, Carries(mesh, d)) <= Offered(mesh, events, d) + |UsedLinks(mesh, net.nodes, d)|
  {
    hide Step, Tally, UsedLinks, Carries, OfferedBy, Arrival, Safe;
    if events == [] {
      NothingYet(mesh, d);
    } else {
      var init, ev := events[..|events| - 1], events[|events| - 1];
      RunSends(mesh, init, d);
      StepIsSafe(mesh, Run(mesh, init), ev);
      StepSends(mesh, Run(mesh, init), ev, d);
      StepArrives(mesh, Run(mesh, init), ev, d);
    }
  }

  lemma NothingYet(mesh: Mesh, d: Digest)
    ensures Safe(mesh, Start(mesh))
    ensures Tally(Start(mesh).delivered, Carries(mesh, d)) == 0 && Tally(Start(mesh).sent, Carries(mesh, d)) == 0
  {
  }

  /** However its messages interleave, an envelope's digest arrives at most once per directed link beyond what its
      broadcasts send themselves. */
  lemma FloodTerminates(mesh: Mesh, events: seq<Event>, d: Digest)
    requires WellFormed(mesh) && Legal(mesh, events)
    ensures Arrivals(mesh, events, d) <= |AllLinks(mesh)| + Offered(mesh, events, d)
  {
    var net := Run(mesh, events);
    hide Tally, Carries, HasIngested, Run;
    RunSends(mesh, events, d);
    TallyAdd(net.wire, net.delivered, Carries(mesh, d));
    CardinalityIsMonotone(UsedLinks(mesh, net.nodes, d), AllLinks(mesh));
  }

  // -------------------------------------------------- one copy on a link

  /** Broadcasting always puts one more copy on each link, whatever was sent before. */
  lemma BroadcastAddsCopy(mesh: Mesh, events: seq<Event>, u: NodeId, v: NodeId, env: Envelope)
    requires WellFormed(mesh) && Legal(mesh, events) && u in mesh.peers
    requires v in Links(mesh, u, env.topic) && !env.noGossip
    ensures Legal(mesh, events + [Broadcast(u, env)])
    ensures Copies(mesh, Run(mesh, events + [Broadcast(u, env)]), u, v, D(mesh, env)) ==
            Copies(mesh, Run(mesh, events), u, v, D(mesh, env)) + 1
  {
    hide Copies, Links;
    RunIsSafe(mesh, events, u, v, D(mesh, env));
    RunAppend(mesh, events, Broadcast(u, env));
    StepCopies(mesh, Run(mesh, events), Broadcast(u, env), u, v, D(mesh, env));
  }

  /** A new envelope broadcast twice in a row travels each of its links twice. */
  lemma TwoBroadcastsTwoCopies(mesh: Mesh, u: NodeId, v: NodeId, env: Envelope)
    requires WellFormed(mesh) && u in mesh.peers && v in Links(mesh, u, env.topic) && !env.noGossip
    ensures Legal(mesh, [Broadcast(u, env), Broadcast(u, env)])
    ensures Copies(mesh, Run(mesh, [Broadcast(u, env), Broadcast(u, env)]), u, v, D(mesh, env)) == 2
  {
    hide Copies, Links, Run, Legal, Start;
    var once := [Broadcast(u, env)];
    assert [] + once == once && once + once == [Broadcast(u, env), Broadcast(u, env)];
    EmptyRun(mesh);
    NothingSent(mesh, u, v, D(mesh, env));
    BroadcastAddsCopy(mesh, [], u, v, env);
    BroadcastAddsCopy(mesh, once, u, v, env);
  }

  lemma EmptyRun(mesh: Mesh)
    requires WellFormed(mesh)
    ensures Legal(mesh, []) && Run(mesh, []) == Start(mesh)
  {
  }

  /** No two texts share a digest. */
  ghost predicate CollisionFree(digest: string -> Digest) {
    forall k, k' :: digest(k) == digest(k') ==> k == k'
  }

  /** w could send u a valid envelope with env's key, perhaps of another topic, that u would forward to v. */
  predicate Reroutes(mesh: Mesh, u: NodeId, v: NodeId, env: Envelope, w: NodeId, f: Envelope)
    requires WellFormed(mesh) && u in mesh.peers
  {
    && w in mesh.peers && w != v && f.wellFormed && !f.noGossip && DataKey(f) == DataKey(env)
    && u in Links(mesh, w, f.topic) && v in Links(mesh, u, f.topic)
  }

  ghost predicate OtherWay(mesh: Mesh, u: NodeId, v: NodeId, env: Envelope)
    requires WellFormed(mesh) && u in mesh.peers
  {
    exists w, f :: Reroutes(mesh, u, v, env, w, f)
  }

  ghost predicate NotAgain(mesh: Mesh, more: seq<Event>, u: NodeId, d: Digest) {
    forall i :: 0 <= i < |more| && more[i].Broadcast? && more[i].at == u ==> D(mesh, more[i].env) != d
  }

  predicate Knows(mesh: Mesh, net: Net, u: NodeId, env: Envelope) {
    u in net.nodes && D(mesh, env) in net.nodes[u].seen
  }

  /** u will not forward the envelope to v: it knows it, or nobody but v could make it do so. */
  ghost predicate Settled(mesh: Mesh, net: Net, u: NodeId, v: NodeId, env: Envelope)
    requires WellFormed(mesh) && u in mesh.peers
  {
    u in net.nodes && (Knows(mesh, net, u, env) || (CollisionFree(mesh.digest) && !OtherWay(mesh, u, v, env)))
  }

  // What a node knows it forwards to nobody, under any digest.
  lemma KnownForwardsNothing(mesh: Mesh, net: Net, ev: Event, u: NodeId, v: NodeId, env: Envelope)
    requires WellFormed(mesh) && u in mesh.peers && Safe(mesh, net) && Enabled(mesh, net, ev)
    requires u in net.nodes
    ensures Knows(mesh, net, u, env) ==>
      !ForwardsOn(mesh, net, ev, u, v, D(mesh, env)) && Knows(mesh, Step(mesh, net, ev), u, env)
    ensures u in Step(mesh, net, ev).nodes
  {
    hide IngestsOnce, Output, DataKey;
    if ev.Deliver? && ev.m.dst == u {
      HandleEffect(mesh.rules[u], net.nodes[u], ev.m.env);
    }
  }

  lemma ForwardingReroutes(mesh: Mesh, net: Net, ev: Event, u: NodeId, v: NodeId, env: Envelope)
    requires WellFormed(mesh) && u in mesh.peers && Safe(mesh, net) && Enabled(mesh, net, ev) && u in net.nodes
    requires CollisionFree(mesh.digest) && ForwardsOn(mesh, net, ev, u, v, D(mesh, env))
    ensures OtherWay(mesh, u, v, env)
  {
    hide IngestsOnce, Output, DataKey, IdentityKey;
    assert ev.m in net.sent;
    ProcessedIsValid(mesh.rules[u], net.nodes[u], ev.m.env);
    assert Reroutes(mesh, u, v, env, ev.m.src, ev.m.env);
  }

  lemma ProcessedIsValid(rules: Rules, n: Node, env: Envelope)
    ensures Handle(rules, n, env, {}).1 == Processed ==> env.wellFormed
  {
  }

  lemma SettledForwardsNothing(mesh: Mesh, net: Net, ev: Event, u: NodeId, v: NodeId, env: Envelope)
    requires WellFormed(mesh) && u in mesh.peers
    requires Safe(mesh, net) && Enabled(mesh, net, ev) && Settled(mesh, net, u, v, env)
    ensures !ForwardsOn(mesh, net, ev, u, v, D(mesh, env))
    ensures Settled(mesh, Step(mesh, net, ev), u, v, env)
  {
    hide OtherWay, CollisionFree, ForwardsOn, Safe, Step;
    KnownForwardsNothing(mesh, net, ev, u, v, env);
    if ForwardsOn(mesh, net, ev, u, v, D(mesh, env)) {
      ForwardingReroutes(mesh, net, ev, u, v, env);
    }
  }

  ghost predicate SettledAfter(mesh: Mesh, events: seq<Event>, u: NodeId, v: NodeId, env: Envelope)
    requires WellFormed(mesh) && u in mesh.peers
  {
    Legal(mesh, events) && Settled(mesh, Run(mesh, events), u, v, env)
  }

  /** The run can go on so, without another broadcast of the envelope by u. */
  ghost predicate Follows(mesh: Mesh, events: seq<Event>, more: seq<Event>, u: NodeId, env: Envelope)
    requires WellFormed(mesh)
  {
    Legal(mesh, events + more) && NotAgain(mesh, more, u, D(mesh, env))
  }

  lemma {:induction false} SettledCarriesNoMore(
      mesh: Mesh, events: seq<Event>, more: seq<Event>, u: NodeId, v: NodeId, env: Envelope)
    requires WellFormed(mesh) && u in mesh.peers
    requires SettledAfter(mesh, events, u, v, env) && Follows(mesh, events, more, u, env)
    ensures Settled(mesh, Run(mesh, events + more), u, v, env)
    ensures Copies(mesh, Run(mesh, events + more), u, v, D(mesh, env)) ==
            Copies(mesh, Run(mesh, events), u, v, D(mesh, env))
    decreases |more|
  {
    hide Settled, Copies, Step, ForwardsOn, Safe;
    if more == [] {
      assert events + more == events;
    } else {
      var init, ev := more[..|more| - 1], more[|more| - 1];
      assert (events + more)[..|events + more| - 1] == events + init;
      assert (events + more)[|events + more| - 1] == ev;
      SettledCarriesNoMore(mesh, events, init, u, v, env);
      RunIsSafe(mesh, events + init, u, v, D(mesh, env));
      SettledForwardsNothing(mesh, Run(mesh, events + init), ev, u, v, env);
      StepCopies(mesh, Run(mesh, events + init), ev, u, v, D(mesh, env));
    }
  }

  /** The envelope comes to u from w. */
  function Echo(u: NodeId, w: NodeId, env: Envelope): seq<Event> {
    [Broadcast(w, env), Deliver(Message(w, u, env))]
  }

  /** The next new payload of the envelope's identity will not be reported: it has been already. */
  predicate Reported(mesh: Mesh, n: Node, env: Envelope) {
    mesh.digest(IdentityKey(env)) in n.dupReported
  }

  // Either u forwards the echo to v, or it reports a double publish and will forward the next one.
  lemma EchoStep(mesh: Mesh, net: Net, u: NodeId, v: NodeId, w: NodeId, env: Envelope)
    requires WellFormed(mesh) && Safe(mesh, net) && u in mesh.peers && w in mesh.peers && w != u && w != v
    requires u in Links(mesh, w, env.topic) && v in Links(mesh, u, env.topic) && env.wellFormed && !env.noGossip
    requires D(mesh, env) !in net.nodes[u].seen
    ensures Enabled(mesh, net, Broadcast(w, env))
    ensures var sent := Step(mesh, net, Broadcast(w, env));
      var ev := Deliver(Message(w, u, env));
      && Enabled(mesh, sent, ev) && !OriginatesOn(mesh, Broadcast(w, env), u, v, D(mesh, env))
      && (ForwardsOn(mesh, sent, ev, u, v, D(mesh, env))
          || (!Reported(mesh, net.nodes[u], env)
              && Reported(mesh, Step(mesh, sent, ev).nodes[u], env)
              && D(mesh, env) !in Step(mesh, sent, ev).nodes[u].seen))
  {
    var sent := Step(mesh, net, Broadcast(w, env));
    var m := Message(w, u, env);
    assert m in Emit(w, Links(mesh, w, env.topic), env);
    assert sent.nodes[u] == net.nodes[u];
    EchoVerdict(mesh, net.nodes[u], mesh.rules[u], env);
  }

  lemma EchoVerdict(mesh: Mesh, n: Node, rules: Rules, env: Envelope)
    requires rules.digest == mesh.digest && D(mesh, env) !in n.seen && env.wellFormed
    ensures var (n', verdict) := Handle(rules, n, env, {});
      verdict == Processed
      || (verdict == Slashed && !Reported(mesh, n, env) && Reported(mesh, n', env) && n'.seen == n.seen)
  {
  }

  lemma EchoRun(mesh: Mesh, events: seq<Event>, u: NodeId, v: NodeId, w: NodeId, env: Envelope)
    requires WellFormed(mesh) && Legal(mesh, events) && u in mesh.peers && w in mesh.peers && w != u && w != v
    requires u in Links(mesh, w, env.topic) && v in Links(mesh, u, env.topic) && env.wellFormed && !env.noGossip
    requires u in Run(mesh, events).nodes && D(mesh, env) !in Run(mesh, events).nodes[u].seen
    ensures Legal(mesh, events + Echo(u, w, env))
    ensures var before, after := Run(mesh, events), Run(mesh, events + Echo(u, w, env));
      && u in after.nodes
      && (Copies(mesh, after, u, v, D(mesh, env)) == Copies(mesh, before, u, v, D(mesh, env)) + 1
          || (!Reported(mesh, before.nodes[u], env) && Reported(mesh, after.nodes[u], env)
              && Copies(mesh, after, u, v, D(mesh, env)) == Copies(mesh, before, u, v, D(mesh, env))
              && D(mesh, env) !in after.nodes[u].seen))
  {
    hide Copies, Links, Step, Reported, Safe, OriginatesOn, ForwardsOn;
    var net, first, second := Run(mesh, events), Broadcast(w, env), Deliver(Message(w, u, env));
    RunIsSafe(mesh, events, u, v, D(mesh, env));
    EchoStep(mesh, net, u, v, w, env);
    RunAppend(mesh, events, first);
    RunAppend(mesh, events + [first], second);
    assert events + [first] + [second] == events + Echo(u, w, env);
    StepCopies(mesh, net, first, u, v, D(mesh, env));
    StepCopies(mesh, Step(mesh, net, first), second, u, v, D(mesh, env));
    NoForward(mesh, net, first, u, v, D(mesh, env));
    NoOrigin(mesh, second, u, v, D(mesh, env));
    RunIsSafe(mesh, events + Echo(u, w, env), u, v, D(mesh, env));
    NodesOfSafe(mesh, Run(mesh, events + Echo(u, w, env)), u);
  }

  lemma NodesOfSafe(mesh: Mesh, net: Net, u: NodeId)
    requires Safe(mesh, net) && u in mesh.peers
    ensures u in net.nodes
  {
  }

  lemma NoForward(mesh: Mesh, net: Net, ev: Event, u: NodeId, v: NodeId, d: Digest)
    requires WellFormed(mesh) && Enabled(mesh, net, ev) && ev.Broadcast?
    ensures !ForwardsOn(mesh, net, ev, u, v, d)
  {
  }

  lemma NoOrigin(mesh: Mesh, ev: Event, u: NodeId, v: NodeId, d: Digest)
    requires WellFormed(mesh) && ev.Deliver?
    ensures !OriginatesOn(mesh, ev, u, v, d)
  {
  }

  // An unsettled envelope can be made to travel the link once more.
  lemma UnsettledCarriesAgain(mesh: Mesh, events: seq<Event>, u: NodeId, v: NodeId, env: Envelope)
      returns (more: seq<Event>)
    requires WellFormed(mesh) && Legal(mesh, events) && u in mesh.peers && u !in mesh.peers[u]
    requires u in Run(mesh, events).nodes
    requires !Knows(mesh, Run(mesh, events), u, env) && OtherWay(mesh, u, v, env)
    ensures Legal(mesh, events + more) && NotAgain(mesh, more, u, D(mesh, env))
    ensures Copies(mesh, Run(mesh, events + more), u, v, D(mesh, env)) ==
            Copies(mesh, Run(mesh, events), u, v, D(mesh, env)) + 1
  {
    hide Copies, Run, Legal, Reported, DataKey;
    var w, f :| Reroutes(mesh, u, v, env, w, f);
    EchoRun(mesh, events, u, v, w, f);
    more := Echo(u, w, f);
    if Copies(mesh, Run(mesh, events + more), u, v, D(mesh, env)) ==
       Copies(mesh, Run(mesh, events), u, v, D(mesh, env)) {
      EchoRun(mesh, events + more, u, v, w, f);
      assert events + more + Echo(u, w, f) == events + (more + Echo(u, w, f));
      more := more + Echo(u, w, f);
    }
  }

  /** From here on, in every run without a further broadcast of the envelope by u, the link to v carries it at most
      once. */
  ghost predicate AtMostOnce(mesh: Mesh, events: seq<Event>, u: NodeId, v: NodeId, env: Envelope)
    requires WellFormed(mesh)
  {
    forall more :: Follows(mesh, events, more, u, env) ==>
      Copies(mesh, Run(mesh, events + more), u, v, D(mesh, env)) <= 1
  }

  /** Under any digest: a first broadcast of an envelope that is in lower case, or that its node had seen, puts the only
      copy on each link. */
  lemma KnownGoesOnce(mesh: Mesh, events: seq<Event>, u: NodeId, v: NodeId, env: Envelope)
    requires WellFormed(mesh) && Legal(mesh, events) && u in mesh.peers && u in Run(mesh, events).nodes
    requires v in Links(mesh, u, env.topic) && !env.noGossip
    requires Copies(mesh, Run(mesh, events), u, v, D(mesh, env)) == 0
    requires ToLower(env.pubkey) == env.pubkey || Knows(mesh, Run(mesh, events), u, env)
    ensures Legal(mesh, events + [Broadcast(u, env)]) && AtMostOnce(mesh, events + [Broadcast(u, env)], u, v, env)
  {
    hide Copies, Links, Step, Legal, Run, CollisionFree, OtherWay;
    var after := events + [Broadcast(u, env)];
    BroadcastAddsCopy(mesh, events, u, v, env);
    RunAppend(mesh, events, Broadcast(u, env));
    BroadcastMakesKnown(mesh, Run(mesh, events), u, env);
    forall more | Follows(mesh, after, more, u, env)
      ensures Copies(mesh, Run(mesh, after + more), u, v, D(mesh, env)) <= 1
    {
      SettledCarriesNoMore(mesh, after, more, u, v, env);
    }
  }

  /** After u broadcasts an envelope once more, the link to v carries it at most once, in every run that follows without
      a further broadcast of it by u, exactly when the link had not carried it yet and either the pubkey is in lower
      case, or u had seen the envelope, or nobody but v could make u forward an envelope with its key. */
  lemma OneCopyExactly(mesh: Mesh, events: seq<Event>, u: NodeId, v: NodeId, env: Envelope)
    requires WellFormed(mesh) && CollisionFree(mesh.digest) && u in mesh.peers && u !in mesh.peers[u]
    requires Legal(mesh, events) && u in Run(mesh, events).nodes
    requires v in Links(mesh, u, env.topic) && !env.noGossip
    ensures AtMostOnce(mesh, events + [Broadcast(u, env)], u, v, env) <==>
      Copies(mesh, Run(mesh, events), u, v, D(mesh, env)) == 0 &&
      (ToLower(env.pubkey) == env.pubkey || Knows(mesh, Run(mesh, events), u, env) || !OtherWay(mesh, u, v, env))
  {
    hide Copies, Links, OtherWay, NotAgain, Step, Run, Legal, CollisionFree, ToLower;
    var d, after, net := D(mesh, env), events + [Broadcast(u, env)], Run(mesh, events);
    BroadcastAddsCopy(mesh, events, u, v, env);
    RunAppend(mesh, events, Broadcast(u, env));
    BroadcastSettles(mesh, net, u, env);
    if Copies(mesh, net, u, v, d) > 0 {
      NothingMore(mesh, after, u, d);
      assert Follows(mesh, after, [], u, env) && Copies(mesh, Run(mesh, after + []), u, v, d) > 1;
    } else if Settled(mesh, Run(mesh, after), u, v, env) {
      forall more | Follows(mesh, after, more, u, env)
        ensures Copies(mesh, Run(mesh, after + more), u, v, d) <= 1
      {
        SettledCarriesNoMore(mesh, after, more, u, v, env);
      }
    } else {
      var more := UnsettledCarriesAgain(mesh, after, u, v, env);
      assert Follows(mesh, after, more, u, env) && Copies(mesh, Run(mesh, after + more), u, v, d) == 2;
    }
  }

  lemma NothingMore(mesh: Mesh, events: seq<Event>, u: NodeId, d: Digest)
    ensures events + [] == events && NotAgain(mesh, [], u, d)
  {
  }

  lemma BroadcastMakesKnown(mesh: Mesh, net: Net, u: NodeId, env: Envelope)
    requires WellFormed(mesh) && u in mesh.peers && u in net.nodes && !env.noGossip
    ensures ToLower(env.pubkey) == env.pubkey || Knows(mesh, net, u, env) ==>
      Knows(mesh, Step(mesh, net, Broadcast(u, env)), u, env)
    ensures u in Step(mesh, net, Broadcast(u, env)).nodes
  {
    hide Output, ToLower, RawKey, DataKey;
    RawIsData(env);
  }

  lemma BroadcastSettles(mesh: Mesh, net: Net, u: NodeId, env: Envelope)
    requires WellFormed(mesh) && CollisionFree(mesh.digest) && u in mesh.peers && u in net.nodes && !env.noGossip
    ensures u in Step(mesh, net, Broadcast(u, env)).nodes
    ensures Knows(mesh, Step(mesh, net, Broadcast(u, env)), u, env) <==>
      ToLower(env.pubkey) == env.pubkey || Knows(mesh, net, u, env)
  {
    hide Output, ToLower, RawKey, DataKey;
    RawIsData(env);
  }

  // ------------------------------------------------- one broadcast in all

  ghost predicate NeverBroadcast(mesh: Mesh, events: seq<Event>, d: Digest) {
    forall i :: 0 <= i < |events| && events[i].Broadcast? ==> D(mesh, events[i].env) != d
  }

  /** Nothing has carried d, and nobody has ingested it. */
  ghost predicate Unheard(mesh: Mesh, net: Net, d: Digest) {
    && (forall m :: m in net.sent ==> D(mesh, m.env) != d)
    && (forall u :: u in net.nodes ==> !HasIngested(mesh, net.nodes[u], d))
  }

  lemma StepUnheard(mesh: Mesh, net: Net, ev: Event, d: Digest)
    requires WellFormed(mesh) && Safe(mesh, net) && Enabled(mesh, net, ev) && Unheard(mesh, net, d)
    requires ev.Broadcast? ==> D(mesh, ev.env) != d
    ensures Unheard(mesh, Step(mesh, net, ev), d)
  {
    hide Handle, Links, IngestsOnce, ProperlySent, D;
    match ev
    case Broadcast(u, env) =>
    case Drop(m) =>
    case Deliver(m) =>
      assert m in net.sent;
      HandleEffect(mesh.rules[m.dst], net.nodes[m.dst], m.env);
      var n, n' := net.nodes[m.dst], Handle(mesh.rules[m.dst], net.nodes[m.dst], m.env, {}).0;
      forall i | 0 <= i < |n'.ingested|
        ensures D(mesh, n'.ingested[i]) != d
      {
        if i < |n.ingested| {
          assert n'.ingested[i] == n.ingested[i];
        }
      }
  }

  lemma {:induction false} RunUnheard(mesh: Mesh, events: seq<Event>, d: Digest)
    requires WellFormed(mesh) && Legal(mesh, events) && NeverBroadcast(mesh, events, d)
    ensures Unheard(mesh, Run(mesh, events), d)
  {
    hide Step, Safe;
    if events != [] {
      RunUnheard(mesh, events[..|events| - 1], d);
      RunStaysSafe(mesh, events[..|events| - 1]);
      StepUnheard(mesh, Run(mesh, events[..|events| - 1]), events[|events| - 1], d);
    }
  }

  // Once u knows the envelope without having ingested it, it never ingests it.
  lemma {:induction false} KnownStaysUningested(
      mesh: Mesh, events: seq<Event>, more: seq<Event>, u: NodeId, env: Envelope)
    requires WellFormed(mesh) && Legal(mesh, events) && Legal(mesh, events + more) && u in mesh.peers
    requires Knows(mesh, Run(mesh, events), u, env)
    requires !HasIngested(mesh, Run(mesh, events).nodes[u], D(mesh, env))
    ensures Knows(mesh, Run(mesh, events + more), u, env)
    ensures !HasIngested(mesh, Run(mesh, events + more).nodes[u], D(mesh, env))
    decreases |more|
  {
    hide HasIngested, Step, Knows, Safe;
    if more == [] {
      assert events + more == events;
    } else {
      var init, ev := more[..|more| - 1], more[|more| - 1];
      assert (events + more)[..|events + more| - 1] == events + init;
      assert (events + more)[|events + more| - 1] == ev;
      KnownStaysUningested(mesh, events, init, u, env);
      RunStaysSafe(mesh, events + init);
      StepKnown(mesh, Run(mesh, events + init), ev, u, env);
    }
  }

  lemma StepKnown(mesh: Mesh, net: Net, ev: Event, u: NodeId, env: Envelope)
    requires WellFormed(mesh) && Safe(mesh, net) && Enabled(mesh, net, ev) && u in mesh.peers
    requires Knows(mesh, net, u, env) && !HasIngested(mesh, net.nodes[u], D(mesh, env))
    ensures Knows(mesh, Step(mesh, net, ev), u, env)
    ensures !HasIngested(mesh, Step(mesh, net, ev).nodes[u], D(mesh, env))
  {
    hide Handle, Output, IngestsOnce, ProperlySent, DataKey, IdentityKey;
    if ev.Deliver? && ev.m.dst == u {
      HandleEffect(mesh.rules[u], net.nodes[u], ev.m.env);
      var n, n' := net.nodes[u], Handle(mesh.rules[u], net.nodes[u], ev.m.env, {}).0;
      forall i | 0 <= i < |n'.ingested|
        ensures D(mesh, n'.ingested[i]) != D(mesh, env)
      {
        if i < |n.ingested| {
          assert n'.ingested[i] == n.ingested[i];
        }
      }
    }
  }

  lemma {:induction false} CountsAdd(
      mesh: Mesh, a: seq<Event>, b: seq<Event>, u: NodeId, v: NodeId, d: Digest)
    requires WellFormed(mesh)
    ensures Originated(mesh, a + b, u, v, d) == Originated(mesh, a, u, v, d) + Originated(mesh, b, u, v, d)
    ensures Offered(mesh, a + b, d) == Offered(mesh, a, d) + Offered(mesh, b, d)
  {
    hide OriginatesOn, OfferedBy;
    if b == [] {
      assert a + b == a;
    } else {
      assert (a + b)[..|a + b| - 1] == a + b[..|b| - 1];
      CountsAdd(mesh, a, b[..|b| - 1], u, v, d);
    }
  }

  lemma {:induction false} NeverCounts(mesh: Mesh, events: seq<Event>, u: NodeId, v: NodeId, d: Digest)
    requires WellFormed(mesh) && NeverBroadcast(mesh, events, d)
    ensures Originated(mesh, events, u, v, d) == 0 && Offered(mesh, events, d) == 0
  {
    if events != [] {
      NeverCounts(mesh, events[..|events| - 1], u, v, d);
    }
  }

  /** A run with one broadcast of the envelope. */
  function OneBroadcast(before: seq<Event>, u: NodeId, env: Envelope, later: seq<Event>): seq<Event> {
    before + [Broadcast(u, env)] + later
  }

  ghost predicate BroadcastOnce(mesh: Mesh, before: seq<Event>, u: NodeId, env: Envelope, later: seq<Event>) {
    NeverBroadcast(mesh, before, D(mesh, env)) && NeverBroadcast(mesh, later, D(mesh, env))
  }

  lemma CountsOfOne(
      mesh: Mesh, before: seq<Event>, u: NodeId, env: Envelope, later: seq<Event>, a: NodeId, b: NodeId)
    requires WellFormed(mesh) && BroadcastOnce(mesh, before, u, env, later)
    ensures Originated(mesh, OneBroadcast(before, u, env, later), a, b, D(mesh, env)) <= if a == u then 1 else 0
    ensures Offered(mesh, OneBroadcast(before, u, env, later), D(mesh, env)) ==
            OfferedBy(mesh, Broadcast(u, env), D(mesh, env))
  {
    hide OfferedBy, Links;
    var d, one := D(mesh, env), [Broadcast(u, env)];
    NeverCounts(mesh, before, a, b, d);
    NeverCounts(mesh, later, a, b, d);
    CountsAdd(mesh, before, one, a, b, d);
    CountsAdd(mesh, before + one, later, a, b, d);
    assert one[..0] == [];
    assert Originated(mesh, one[..0], a, b, d) == 0 && Offered(mesh, one[..0], d) == 0;
  }

  // Its broadcaster knows the envelope from then on, and so never ingests it.
  lemma OriginNeverIngests(mesh: Mesh, before: seq<Event>, u: NodeId, env: Envelope, later: seq<Event>)
    requires WellFormed(mesh) && u in mesh.peers && Legal(mesh, OneBroadcast(before, u, env, later))
    requires BroadcastOnce(mesh, before, u, env, later) && ToLower(env.pubkey) == env.pubkey && !env.noGossip
    ensures var net := Run(mesh, OneBroadcast(before, u, env, later));
      u in net.nodes && !HasIngested(mesh, net.nodes[u], D(mesh, env))
  {
    hide HasIngested, ToLower, Step, D, Knows, Output;
    var after := before + [Broadcast(u, env)];
    LegalPrefix(mesh, after, later);
    LegalPrefix(mesh, before, [Broadcast(u, env)]);
    RunStaysSafe(mesh, before);
    RunUnheard(mesh, before, D(mesh, env));
    RunAppend(mesh, before, Broadcast(u, env));
    BroadcastMakesKnown(mesh, Run(mesh, before), u, env);
    UnheardOrigin(mesh, Run(mesh, before), u, env);
    KnownStaysUningested(mesh, after, later, u, env);
    RunStaysSafe(mesh, after + later);
  }

  lemma UnheardOrigin(mesh: Mesh, net: Net, u: NodeId, env: Envelope)
    requires WellFormed(mesh) && u in mesh.peers && u in net.nodes && Unheard(mesh, net, D(mesh, env))
    ensures !HasIngested(mesh, Step(mesh, net, Broadcast(u, env)).nodes[u], D(mesh, env))
  {
    BroadcastKeepsIngested(mesh, net.nodes[u], Marked(mesh.rules[u], net.nodes[u], env), D(mesh, env));
  }

  lemma {:induction false} LegalPrefix(mesh: Mesh, events: seq<Event>, more: seq<Event>)
    requires WellFormed(mesh) && Legal(mesh, events + more)
    ensures Legal(mesh, events)
    decreases |more|
  {
    if more == [] {
      assert events + more == events;
    } else {
      assert (events + more)[..|events + more| - 1] == events + more[..|more| - 1];
      LegalPrefix(mesh, events, more[..|more| - 1]);
    }
  }

  /** One broadcast of an envelope with a lower-case pubkey: under any digest every directed link carries it at most
      once, and no more copies arrive than there are links. */
  lemma OneBroadcastOneCopy(
      mesh: Mesh, before: seq<Event>, u: NodeId, env: Envelope, later: seq<Event>, a: NodeId, b: NodeId)
    requires WellFormed(mesh) && u in mesh.peers && Legal(mesh, OneBroadcast(before, u, env, later))
    requires BroadcastOnce(mesh, before, u, env, later) && ToLower(env.pubkey) == env.pubkey && !env.noGossip
    ensures a in mesh.peers ==> Copies(mesh, Run(mesh, OneBroadcast(before, u, env, later)), a, b, D(mesh, env)) <= 1
    ensures Arrivals(mesh, OneBroadcast(before, u, env, later), D(mesh, env)) <= |AllLinks(mesh)|
  {
    hide Copies, Tally, HasIngested, Run, Legal, ToLower, Carries, NeverBroadcast, D, OneBroadcast, Step;
    var d, events := D(mesh, env), OneBroadcast(before, u, env, later);
    OriginNeverIngests(mesh, before, u, env, later);
    CountsOfOne(mesh, before, u, env, later, a, b);
    if a in mesh.peers {
      RunIsSafe(mesh, events, a, b, d);
    }
    var net := Run(mesh, events);
    RunSends(mesh, events, d);
    TallyAdd(net.wire, net.delivered, Carries(mesh, d));
    OriginLinksUnused(mesh, net.nodes, u, env.topic, d);
  }

  lemma OriginLinksUnused(mesh: Mesh, nodes: map<NodeId, Node>, u: NodeId, topic: string, d: Digest)
    requires WellFormed(mesh) && u in mesh.peers && u in nodes && !HasIngested(mesh, nodes[u], d)
    ensures |Links(mesh, u, topic)| + |UsedLinks(mesh, nodes, d)| <= |AllLinks(mesh)|
  {
    hide HasIngested, Interested;
    var own := set v | v in Links(mesh, u, topic) :: (u, v);
    LinksOutCount(u, Links(mesh, u, topic));
    assert own !! UsedLinks(mesh, nodes, d);
    CardinalityIsMonotone(own + UsedLinks(mesh, nodes, d), AllLinks(mesh));
  }
}
