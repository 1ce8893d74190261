/** The gossip flood over a fixed mesh: every run of broadcasts and deliveries
    (internal/gossip/handlers.go, internal/gossip/manager.go). */
module Flood {
  import opened Gossip

  /** The nodes, their connections and declared interests, and each node's rules. */
  datatype Mesh = Mesh(
    peers: map<NodeId, set<NodeId>>,
    interests: map<NodeId, map<NodeId, seq<string>>>,
    rules: map<NodeId, Rules>,
    digest: string -> Digest)

  /** Every node has peers in the mesh, interests for them and rules with the mesh's digest. */
  ghost predicate WellFormed(mesh: Mesh) {
    && mesh.peers.Keys == mesh.interests.Keys == mesh.rules.Keys
    && "" !in mesh.peers
    && (forall u :: u in mesh.peers ==> mesh.peers[u] <= mesh.peers.Keys && mesh.rules[u].digest == mesh.digest)
  }

  datatype Message = Message(src: NodeId, dst: NodeId, env: Envelope)

  /** The nodes, the messages in flight, and two histories: all messages sent and all delivered. */
  datatype Net = Net(
    nodes: map<NodeId, Node>,
    wire: multiset<Message>,
    sent: multiset<Message>,
    delivered: multiset<Message>,
    origins: set<(NodeId, Envelope)>)

  /** What can happen: a node broadcasts, or a message arrives and is dropped or handled. */
  datatype Event =
    | Broadcast(at: NodeId, env: Envelope)
    | Drop(m: Message)
    | Deliver(m: Message)

  function Start(mesh: Mesh): Net {
    Net(map u | u in mesh.peers :: Node({}, map[], {}, []), multiset{}, multiset{}, multiset{}, {})
  }

  /** The links an envelope may travel from u: to its connected peers that declared an interest in the topic. */
  function Links(mesh: Mesh, u: NodeId, topic: string): set<NodeId>
    requires u in mesh.peers && u in mesh.interests
  {
    Targets(mesh.peers[u], mesh.interests[u], "", topic)
  }

  function Emit(src: NodeId, targets: set<NodeId>, env: Envelope): multiset<Message> {
    multiset(set v | v in targets :: Message(src, v, env))
  }

  function ForwardedTo(mesh: Mesh, u: NodeId, src: NodeId, env: Envelope, verdict: Verdict): set<NodeId>
    requires u in mesh.peers && u in mesh.interests
  {
    if verdict == Processed && !env.noGossip then Targets(mesh.peers[u], mesh.interests[u], src, env.topic) else {}
  }

  /** Any node may broadcast anything at any time; only messages in flight arrive. */
  predicate Enabled(mesh: Mesh, net: Net, ev: Event) {
    match ev
    case Broadcast(u, env) => u in mesh.peers && u in net.nodes
    case Drop(m) => m in net.wire
    case Deliver(m) => m in net.wire && m.dst in mesh.peers && m.dst in net.nodes
  }

  /** The messages an event puts on the wire. */
  function Output(mesh: Mesh, net: Net, ev: Event): multiset<Message>
    requires WellFormed(mesh) && Enabled(mesh, net, ev)
  {
    match ev
    case Broadcast(u, env) => Emit(u, if env.noGossip then {} else Links(mesh, u, env.topic), env)
    case Drop(_) => multiset{}
    case Deliver(m) =>
      var verdict := Handle(mesh.rules[m.dst], net.nodes[m.dst], m.env, {}).1;
      Emit(m.dst, ForwardedTo(mesh, m.dst, m.src, m.env, verdict), m.env)
  }

  /** What the events mean; nothing is ever forgotten in this model. */
  function Step(mesh: Mesh, net: Net, ev: Event): Net
    requires WellFormed(mesh) && Enabled(mesh, net, ev)
  {
    var out := Output(mesh, net, ev);
    match ev
    case Broadcast(u, env) =>
      net.(nodes := net.nodes[u := Marked(mesh.rules[u], net.nodes[u], env)],
           wire := net.wire + out, sent := net.sent + out, origins := net.origins + {(u, env)})
    case Drop(m) =>
      net.(wire := net.wire - multiset{m}, delivered := net.delivered + multiset{m})
    case Deliver(m) =>
      net.(nodes := net.nodes[m.dst := Handle(mesh.rules[m.dst], net.nodes[m.dst], m.env, {}).0],
           wire := net.wire - multiset{m} + out, sent := net.sent + out, delivered := net.delivered + multiset{m})
  }

  // ------------------------------------------------------------------ runs

  ghost predicate Legal(mesh: Mesh, events: seq<Event>)
    requires WellFormed(mesh)
    decreases |events|, 0
  {
    events == [] ||
    (Legal(mesh, events[..|events| - 1]) &&
     Enabled(mesh, Run(mesh, events[..|events| - 1]), events[|events| - 1]))
  }

  ghost function Run(mesh: Mesh, events: seq<Event>): Net
    requires WellFormed(mesh) && Legal(mesh, events)
    decreases |events|, 1
  {
    if events == [] then Start(mesh)
    else Step(mesh, Run(mesh, events[..|events| - 1]), events[|events| - 1])
  }

  lemma RunAppend(mesh: Mesh, events: seq<Event>, ev: Event)
    requires WellFormed(mesh) && Legal(mesh, events)
    ensures Legal(mesh, events + [ev]) <==> Enabled(mesh, Run(mesh, events), ev)
    ensures Legal(mesh, events + [ev]) ==> Run(mesh, events + [ev]) == Step(mesh, Run(mesh, events), ev)
  {
    assert (events + [ev])[..|events|] == events;
  }

  // ------------------------------------------------------ counting messages

  /** How many of the messages satisfy p. */
  ghost function Tally(ms: multiset<Message>, p: Message -> bool): nat
    decreases |ms|
  {
    if ms == multiset{} then 0
    else
      var m :| m in ms;
      Tally(ms - multiset{m}, p) + if p(m) then 1 else 0
  }

  lemma {:induction false} TallyRemove(ms: multiset<Message>, m: Message, p: Message -> bool)
    requires m in ms
    ensures Tally(ms, p) == Tally(ms - multiset{m}, p) + if p(m) then 1 else 0
    decreases |ms|
  {
    var x :| x in ms && Tally(ms, p) == Tally(ms - multiset{x}, p) + if p(x) then 1 else 0;
    if x != m {
      TallyRemove(ms - multiset{x}, m, p);
      TallyRemove(ms - multiset{m}, x, p);
      assert ms - multiset{x} - multiset{m} == ms - multiset{m} - multiset{x};
    }
  }

  lemma {:induction false} TallyAdd(a: multiset<Message>, b: multiset<Message>, p: Message -> bool)
    ensures Tally(a + b, p) == Tally(a, p) + Tally(b, p)
    decreases |b|
  {
    if b == multiset{} {
      assert a + b == a;
    } else {
      var m :| m in b;
      TallyRemove(b, m, p);
      TallyRemove(a + b, m, p);
      TallyAdd(a, b - multiset{m}, p);
      assert a + b - multiset{m} == a + (b - multiset{m});
    }
  }

  lemma TallyOne(m: Message, p: Message -> bool)
    ensures Tally(multiset{m}, p) == if p(m) then 1 else 0
  {
    TallyRemove(multiset{m}, m, p);
    assert multiset{m} - multiset{m} == multiset{};
  }

  function D(mesh: Mesh, env: Envelope): Digest {
    mesh.digest(DataKey(env))
  }

  /** The messages that carry digest d. */
  function Carries(mesh: Mesh, d: Digest): Message -> bool {
    (m: Message) => D(mesh, m.env) == d
  }

  /** Those among them from u to v. */
  function OnLink(mesh: Mesh, u: NodeId, v: NodeId, d: Digest): Message -> bool {
    (m: Message) => m.src == u && m.dst == v && D(mesh, m.env) == d
  }

  // What one node emits puts at most one message on each link.
  lemma {:induction false} TallyEmit(
      mesh: Mesh, src: NodeId, targets: set<NodeId>, env: Envelope, u: NodeId, v: NodeId, d: Digest)
    ensures Tally(Emit(src, targets, env), OnLink(mesh, u, v, d)) ==
            if src == u && v in targets && D(mesh, env) == d then 1 else 0
    ensures Tally(Emit(src, targets, env), Carries(mesh, d)) == if D(mesh, env) == d then |targets| else 0
  {
    if targets == {} {
      assert Emit(src, targets, env) == multiset{};
    } else {
      var w :| w in targets;
      var rest, m := targets - {w}, Message(src, w, env);
      TallyEmit(mesh, src, rest, env, u, v, d);
      EmitSplits(src, targets, w, env);
      TallyAdd(Emit(src, rest, env), multiset{m}, OnLink(mesh, u, v, d));
      TallyAdd(Emit(src, rest, env), multiset{m}, Carries(mesh, d));
      TallyOne(m, OnLink(mesh, u, v, d));
      TallyOne(m, Carries(mesh, d));
    }
  }

  lemma EmitSplits(src: NodeId, targets: set<NodeId>, w: NodeId, env: Envelope)
    requires w in targets
    ensures Emit(src, targets, env) == Emit(src, targets - {w}, env) + multiset{Message(src, w, env)}
  {
    var all := set v | v in targets :: Message(src, v, env);
    var rest := set v | v in targets - {w} :: Message(src, v, env);
    assert all == rest + {Message(src, w, env)};
  }

  // --------------------------------------- once per node, bounded per link

  lemma HandleEffect(rules: Rules, n: Node, env: Envelope)
    ensures var (n', verdict) := Handle(rules, n, env, {});
            && n.seen <= n'.seen <= n.seen + {rules.digest(DataKey(env)), rules.digest(IdentityKey(env))}
            && (verdict == Processed ==>
                  rules.digest(DataKey(env)) in n'.seen - n.seen && n'.ingested == n.ingested + [env])
            && (verdict != Processed ==> n'.ingested == n.ingested)
  {
  }

  /** A node ingests no digest twice, and has seen all it ingested. */
  ghost predicate IngestsOnce(mesh: Mesh, n: Node) {
    && (forall i :: 0 <= i < |n.ingested| ==> D(mesh, n.ingested[i]) in n.seen)
    && (forall i, j :: 0 <= i < j < |n.ingested| ==> D(mesh, n.ingested[i]) != D(mesh, n.ingested[j]))
  }

  /** Every message left over one of its sender's links for the topic. */
  ghost predicate ProperlySent(mesh: Mesh, sent: multiset<Message>) {
    forall m :: m in sent ==>
      m.src in mesh.peers && m.src in mesh.interests && m.dst in Links(mesh, m.src, m.env.topic)
  }

  ghost predicate Safe(mesh: Mesh, net: Net) {
    && net.nodes.Keys == mesh.peers.Keys
    && (forall u :: u in net.nodes ==> IngestsOnce(mesh, net.nodes[u]))
    && ProperlySent(mesh, net.sent)
    && net.sent == net.wire + net.delivered
  }

  lemma IngestOnce(mesh: Mesh, n: Node, n': Node, env: Envelope)
    requires IngestsOnce(mesh, n) && n.seen <= n'.seen
    requires n'.ingested == n.ingested ||
      (n'.ingested == n.ingested + [env] && D(mesh, env) in n'.seen - n.seen)
    ensures IngestsOnce(mesh, n')
  {
  }

  lemma OutputIsProper(mesh: Mesh, net: Net, ev: Event)
    requires WellFormed(mesh) && Enabled(mesh, net, ev)
    ensures ProperlySent(mesh, Output(mesh, net, ev))
  {
    hide Handle;
  }

  lemma NodesStaySafe(mesh: Mesh, net: Net, ev: Event)
    requires WellFormed(mesh) && Safe(mesh, net) && Enabled(mesh, net, ev)
    ensures var after := Step(mesh, net, ev);
      after.nodes.Keys == mesh.peers.Keys && forall u :: u in after.nodes ==> IngestsOnce(mesh, after.nodes[u])
  {
    hide IngestsOnce, Output, Handle, ProperlySent;
    match ev
    case Broadcast(u, env) =>
      IngestOnce(mesh, net.nodes[u], Marked(mesh.rules[u], net.nodes[u], env), env);
    case Drop(m) =>
    case Deliver(m) =>
      HandleEffect(mesh.rules[m.dst], net.nodes[m.dst], m.env);
      IngestOnce(mesh, net.nodes[m.dst], Handle(mesh.rules[m.dst], net.nodes[m.dst], m.env, {}).0, m.env);
  }

  lemma StepIsSafe(mesh: Mesh, net: Net, ev: Event)
    requires WellFormed(mesh) && Safe(mesh, net) && Enabled(mesh, net, ev)
    ensures Safe(mesh, Step(mesh, net, ev))
  {
    hide Step, IngestsOnce, ProperlySent;
    NodesStaySafe(mesh, net, ev);
    SentStaysProper(mesh, net, ev);
    SentIsConserved(mesh, net, ev);
  }

  lemma SentStaysProper(mesh: Mesh, net: Net, ev: Event)
    requires WellFormed(mesh) && Enabled(mesh, net, ev) && ProperlySent(mesh, net.sent)
    ensures ProperlySent(mesh, Step(mesh, net, ev).sent)
  {
    hide Output, Handle, Links;
    OutputIsProper(mesh, net, ev);
  }

  lemma SentIsConserved(mesh: Mesh, net: Net, ev: Event)
    requires WellFormed(mesh) && Enabled(mesh, net, ev) && net.sent == net.wire + net.delivered
    ensures var after := Step(mesh, net, ev); after.sent == after.wire + after.delivered
  {
    hide Output, Handle;
  }

  lemma {:induction false} RunStaysSafe(mesh: Mesh, events: seq<Event>)
    requires WellFormed(mesh) && Legal(mesh, events)
    ensures Safe(mesh, Run(mesh, events))
  {
    hide Step;
    if events != [] {
      RunStaysSafe(mesh, events[..|events| - 1]);
      StepIsSafe(mesh, Run(mesh, events[..|events| - 1]), events[|events| - 1]);
    }
  }

  /** The broadcasts in a run that put digest d on the link from u to v. */
  function Originated(mesh: Mesh, events: seq<Event>, u: NodeId, v: NodeId, d: Digest): nat
    requires WellFormed(mesh)
  {
    if events == [] then 0
    else
      Originated(mesh, events[..|events| - 1], u, v, d) +
      if OriginatesOn(mesh, events[|events| - 1], u, v, d) then 1 else 0
  }

  predicate OriginatesOn(mesh: Mesh, ev: Event, u: NodeId, v: NodeId, d: Digest)
    requires WellFormed(mesh)
  {
    && ev.Broadcast? && ev.at == u && u in mesh.peers
    && D(mesh, ev.env) == d && !ev.env.noGossip && v in Links(mesh, u, ev.env.topic)
  }

  /** How often the link from u to v has carried digest d. */
  ghost function Copies(mesh: Mesh, net: Net, u: NodeId, v: NodeId, d: Digest): nat {
    Tally(net.sent, OnLink(mesh, u, v, d))
  }

  predicate HasIngested(mesh: Mesh, n: Node, d: Digest) {
    exists i :: 0 <= i < |n.ingested| && D(mesh, n.ingested[i]) == d
  }

  /** Whether an event makes u forward digest d to v: a first delivery, from someone else. */
  predicate ForwardsOn(mesh: Mesh, net: Net, ev: Event, u: NodeId, v: NodeId, d: Digest)
    requires WellFormed(mesh) && Enabled(mesh, net, ev)
  {
    && ev.Deliver? && ev.m.dst == u && D(mesh, ev.m.env) == d
    && v in ForwardedTo(mesh, u, ev.m.src, ev.m.env, Handle(mesh.rules[u], net.nodes[u], ev.m.env, {}).1)
  }

  lemma StepCopies(mesh: Mesh, net: Net, ev: Event, u: NodeId, v: NodeId, d: Digest)
    requires WellFormed(mesh) && Enabled(mesh, net, ev)
    ensures Copies(mesh, Step(mesh, net, ev), u, v, d) ==
            Copies(mesh, net, u, v, d) +
            (if OriginatesOn(mesh, ev, u, v, d) || ForwardsOn(mesh, net, ev, u, v, d) then 1 else 0)
  {
    hide Handle, Links, Marked;
    var out, p := Output(mesh, net, ev), OnLink(mesh, u, v, d);
    match ev
    case Broadcast(w, env) =>
      TallyAdd(net.sent, out, p);
      TallyEmit(mesh, w, if env.noGossip then {} else Links(mesh, w, env.topic), env, u, v, d);
    case Drop(m) =>
    case Deliver(m) =>
      TallyAdd(net.sent, out, p);
      var verdict := Handle(mesh.rules[m.dst], net.nodes[m.dst], m.env, {}).1;
      TallyEmit(mesh, m.dst, ForwardedTo(mesh, m.dst, m.src, m.env, verdict), m.env, u, v, d);
  }

  // A node forwards a digest only when it first ingests it.
  lemma ForwardIngests(mesh: Mesh, net: Net, ev: Event, u: NodeId, v: NodeId, d: Digest)
    requires WellFormed(mesh) && Safe(mesh, net) && Enabled(mesh, net, ev) && u in net.nodes
    ensures HasIngested(mesh, net.nodes[u], d) ==> HasIngested(mesh, Step(mesh, net, ev).nodes[u], d)
    ensures ForwardsOn(mesh, net, ev, u, v, d) ==>
            !HasIngested(mesh, net.nodes[u], d) && HasIngested(mesh, Step(mesh, net, ev).nodes[u], d)
  {
    hide Handle, Output, Links;
    if ev.Deliver? && ev.m.dst == u {
      var n, n' := net.nodes[u], Step(mesh, net, ev).nodes[u];
      HandleEffect(mesh.rules[u], n, ev.m.env);
      if HasIngested(mesh, n, d) {
        var i :| 0 <= i < |n.ingested| && D(mesh, n.ingested[i]) == d;
        assert n'.ingested[i] == n.ingested[i];
      }
      if ForwardsOn(mesh, net, ev, u, v, d) {
        assert n'.ingested[|n.ingested|] == ev.m.env;
      }
    }
  }

  /** In every run, with any mix of broadcasts and envelopes, each node ingests each envelope from its peers at most
      once, and a link carries it once for each broadcast over the link and at most once more. */
  lemma {:induction false} RunIsSafe(mesh: Mesh, events: seq<Event>, u: NodeId, v: NodeId, d: Digest)
    requires WellFormed(mesh) && Legal(mesh, events) && u in mesh.peers
    ensures Safe(mesh, Run(mesh, events))
    ensures var net, n := Run(mesh, events), Originated(mesh, events, u, v, d);
      n <= Copies(mesh, net, u, v, d) <= n + if HasIngested(mesh, net.nodes[u], d) then 1 else 0
  {
    hide Copies, HasIngested, Step, OriginatesOn, ForwardsOn;
    if events == [] {
      NothingSent(mesh, u, v, d);
    } else {
      var init, ev := events[..|events| - 1], events[|events| - 1];
      var net := Run(mesh, init);
      RunIsSafe(mesh, init, u, v, d);
      StepIsSafe(mesh, net, ev);
      StepCopies(mesh, net, ev, u, v, d);
      ForwardIngests(mesh, net, ev, u, v, d);
      OneCause(mesh, net, ev, u, v, d);
    }
  }

  lemma NothingSent(mesh: Mesh, u: NodeId, v: NodeId, d: Digest)
    ensures Copies(mesh, Start(mesh), u, v, d) == 0 && Safe(mesh, Start(mesh))
  {
  }

  lemma OneCause(mesh: Mesh, net: Net, ev: Event, u: NodeId, v: NodeId, d: Digest)
    requires WellFormed(mesh) && Enabled(mesh, net, ev)
    ensures !(OriginatesOn(mesh, ev, u, v, d) && ForwardsOn(mesh, net, ev, u, v, d))
  {
  }
}
