/** Whom a flood reaches. */
module FloodCoverage {
  import opened Gossip
  import opened Flood
  import opened Hex

  // ------------------------------------------------- what may be in play

  /** The same envelope, but for the case of its pubkey and whether it is validly signed. */
  predicate Same(f: Envelope, e: Envelope) {
    DataFields(f) == DataFields(e)
  }

  /** Another payload for the same topic, pubkey and timestamp. */
  predicate Rivals(f: Envelope, e: Envelope) {
    IdentityFields(f) == IdentityFields(e) && !Same(f, e)
  }

  function KeysOf(f: Envelope): set<Fields> {
    {RawFields(f), DataFields(f), IdentityFields(f)}
  }

  /** The digest tells the keys of these envelopes apart. */
  ghost predicate Distinguishes(digest: string -> Digest, universe: set<Envelope>) {
    forall f, g, a, b ::
      f in universe && g in universe && a in KeysOf(f) && b in KeysOf(g) && digest(Text(a)) == digest(Text(b)) ==>
        a == b
  }

  /** Every gossiped copy of e is validly signed, and e has at most one gossiped rival payload. */
  ghost predicate Undisturbed(universe: set<Envelope>, e: Envelope) {
    && (forall f :: f in universe && !f.noGossip && Same(f, e) ==> f.wellFormed)
    && (forall f, g ::
          f in universe && g in universe && !f.noGossip && !g.noGossip && Rivals(f, e) && Rivals(g, e) ==> Same(f, g))
  }

  /** An envelope worth following: valid, gossiped and, as Validate demands, with a payload. */
  predicate Floods(universe: set<Envelope>, e: Envelope) {
    e in universe && e.wellFormed && !e.noGossip && e.payload != ""
  }

  ghost predicate Setting(digest: string -> Digest, universe: set<Envelope>, e: Envelope) {
    Floods(universe, e) && Distinguishes(digest, universe) && Undisturbed(universe, e)
  }

  // ---------------------------------------------------- what a node knows

  ghost predicate RivalSeen(digest: string -> Digest, universe: set<Envelope>, n: Node, e: Envelope) {
    exists g :: g in universe && !g.noGossip && Rivals(g, e) && digest(DataKey(g)) in n.seen
  }

  predicate HasIn(ingested: seq<Envelope>, e: Envelope) {
    exists i :: 0 <= i < |ingested| && Same(ingested[i], e)
  }

  /** A node that has seen e ingested or broadcast it; one that has not has counted no payload against it. */
  ghost predicate KnowsFully(digest: string -> Digest, universe: set<Envelope>, n: Node, origin: bool, e: Envelope) {
    if digest(DataKey(e)) in n.seen then origin || HasIn(n.ingested, e)
    else
      && Count(n.dupCounts, digest(IdentityKey(e))) == 0
      && (digest(IdentityKey(e)) in n.seen ==> RivalSeen(digest, universe, n, e))
  }

  // Of envelopes told apart, only copies of e have its key, and only its rivals its identity.
  lemma Apart(digest: string -> Digest, universe: set<Envelope>, e: Envelope, f: Envelope)
    requires Floods(universe, e) && Distinguishes(digest, universe) && f in universe
    ensures digest(DataKey(f)) == digest(DataKey(e)) <==> Same(f, e)
    ensures digest(IdentityKey(f)) == digest(IdentityKey(e)) <==> Same(f, e) || Rivals(f, e)
    ensures digest(IdentityKey(f)) != digest(DataKey(e))
    ensures digest(DataKey(f)) == digest(IdentityKey(e)) ==> Rivals(f, e)
    ensures digest(RawKey(f)) == digest(DataKey(e)) ==> Same(f, e)
    ensures digest(RawKey(f)) == digest(IdentityKey(e)) ==> Rivals(f, e) && RawKey(f) == DataKey(f)
  {
    LowerTwice(e.pubkey);
    hide Text, ToLower;
    assert {RawFields(f), DataFields(f), IdentityFields(f)} == KeysOf(f);
    assert DataFields(e) in KeysOf(e) && IdentityFields(e) in KeysOf(e);
    assert RawFields(f) in KeysOf(f) && DataFields(f) in KeysOf(f) && IdentityFields(f) in KeysOf(f);
  }

  lemma CopyIsProcessed(
      digest: string -> Digest, universe: set<Envelope>, n: Node, rules: Rules, origin: bool, e: Envelope, f: Envelope)
    requires Setting(digest, universe, e) && rules.digest == digest && KnowsFully(digest, universe, n, origin, e)
    requires f in universe && !f.noGossip && Same(f, e)
    ensures var (n', verdict) := Handle(rules, n, f, {});
      && verdict == (if digest(DataKey(e)) in n.seen then Duplicate else Processed)
      && digest(DataKey(e)) in n'.seen && KnowsFully(digest, universe, n', origin, e)
  {
    Apart(digest, universe, e, f);
    hide Text, Distinguishes, DataKey, IdentityKey, RivalSeen;
    var n' := Handle(rules, n, f, {}).0;
    assert f.wellFormed && DataKey(f) == DataKey(e) && IdentityKey(f) == IdentityKey(e) by { SameKeys(f, e); }
    if digest(DataKey(e)) !in n.seen {
      assert n'.ingested[|n.ingested|] == f;
    }
  }

  lemma SameKeys(f: Envelope, e: Envelope)
    requires Same(f, e)
    ensures DataKey(f) == DataKey(e) && IdentityKey(f) == IdentityKey(e) && f.topic == e.topic
  {
  }

  lemma IngestedStays(n: Node, n': Node, e: Envelope)
    requires n.ingested <= n'.ingested
    ensures HasIn(n.ingested, e) ==> HasIn(n'.ingested, e)
  {
    if i :| 0 <= i < |n.ingested| && Same(n.ingested[i], e) {
      assert n'.ingested[i] == n.ingested[i];
    }
  }

  lemma RivalSeenStays(digest: string -> Digest, universe: set<Envelope>, n: Node, n': Node, e: Envelope)
    requires n.seen <= n'.seen
    ensures RivalSeen(digest, universe, n, e) ==> RivalSeen(digest, universe, n', e)
  {
  }

  lemma OtherKeepsKnowledge(
      digest: string -> Digest, universe: set<Envelope>, n: Node, rules: Rules, origin: bool, e: Envelope, f: Envelope)
    requires Setting(digest, universe, e) && rules.digest == digest && KnowsFully(digest, universe, n, origin, e)
    requires f in universe && !f.noGossip && !Same(f, e)
    ensures var n' := Handle(rules, n, f, {}).0;
      && (digest(DataKey(e)) in n'.seen <==> digest(DataKey(e)) in n.seen)
      && KnowsFully(digest, universe, n', origin, e)
  {
    Apart(digest, universe, e, f);
    hide Text, Distinguishes, DataKey, IdentityKey, Same;
    var n' := Handle(rules, n, f, {}).0;
    IngestedStays(n, n', e);
    RivalSeenStays(digest, universe, n, n', e);
    if Rivals(f, e) && digest(DataKey(e)) !in n.seen && digest(IdentityKey(e)) in n.seen {
      var g :| g in universe && !g.noGossip && Rivals(g, e) && digest(DataKey(g)) in n.seen;
      assert DataKey(f) == DataKey(g) by { SameKeys(f, g); }
    }
  }

  lemma MarkKeepsKnowledge(
      digest: string -> Digest, universe: set<Envelope>, n: Node, rules: Rules, origin: bool, e: Envelope, f: Envelope)
    requires Setting(digest, universe, e) && rules.digest == digest && KnowsFully(digest, universe, n, origin, e)
    requires f in universe
    ensures var n' := Marked(rules, n, f);
      && KnowsFully(digest, universe, n', origin || (Same(f, e) && !f.noGossip), e)
      && (f.noGossip || !Same(f, e) ==> (digest(DataKey(e)) in n'.seen <==> digest(DataKey(e)) in n.seen))
  {
    Apart(digest, universe, e, f);
    hide Text, Distinguishes, DataKey, IdentityKey, RawKey, Same;
    RivalSeenStays(digest, universe, n, Marked(rules, n, f), e);
  }

  // --------------------------------------------------- who has the envelope

  predicate OriginOf(origins: set<(NodeId, Envelope)>, u: NodeId, e: Envelope) {
    exists o :: o in origins && o.0 == u && Same(o.1, e) && !o.1.noGossip
  }

  /** u has e: by gossip, or because it broadcast it. */
  predicate Holder(mesh: Mesh, nodes: map<NodeId, Node>, origins: set<(NodeId, Envelope)>, u: NodeId, e: Envelope) {
    u in nodes && (D(mesh, e) in nodes[u].seen || OriginOf(origins, u, e))
  }

  predicate InFlight(wire: multiset<Message>, u: NodeId, v: NodeId, e: Envelope) {
    exists m :: m in wire && m.src == u && m.dst == v && Same(m.env, e)
  }

  /** Each link out of a holder has been used, is being used, or is not needed. */
  ghost predicate LinksServed(
      mesh: Mesh, nodes: map<NodeId, Node>, origins: set<(NodeId, Envelope)>, wire: multiset<Message>, e: Envelope) {
    forall u, v ::
      u in mesh.peers && u in mesh.interests && v in Links(mesh, u, e.topic) && Holder(mesh, nodes, origins, u, e) ==>
        Holder(mesh, nodes, origins, v, e) || InFlight(wire, u, v, e)
  }

  ghost predicate SentByHolders(
      mesh: Mesh, nodes: map<NodeId, Node>, origins: set<(NodeId, Envelope)>, sent: multiset<Message>, e: Envelope) {
    forall m :: m in sent && Same(m.env, e) ==> Holder(mesh, nodes, origins, m.src, e)
  }

  ghost predicate SentFrom(universe: set<Envelope>, sent: multiset<Message>) {
    forall m :: m in sent ==> m.env in universe && !m.env.noGossip
  }

  ghost predicate AllKnow(mesh: Mesh, universe: set<Envelope>, net: Net, e: Envelope) {
    forall u :: u in net.nodes ==>
      KnowsFully(mesh.digest, universe, net.nodes[u], OriginOf(net.origins, u, e), e)
  }

  ghost predicate Spreading(mesh: Mesh, universe: set<Envelope>, net: Net, e: Envelope) {
    && SentFrom(universe, net.sent)
    && AllKnow(mesh, universe, net, e)
    && SentByHolders(mesh, net.nodes, net.origins, net.sent, e)
    && LinksServed(mesh, net.nodes, net.origins, net.wire, e)
  }

  // u changes to n' and may become a holder; if so it sends e on every link but that to src, which is a holder.
  lemma HoldersMove(
      mesh: Mesh, nodes: map<NodeId, Node>, origins: set<(NodeId, Envelope)>, wire: multiset<Message>,
      u: NodeId, n': Node, origins': set<(NodeId, Envelope)>, wire': multiset<Message>, e: Envelope, src: NodeId)
    requires LinksServed(mesh, nodes, origins, wire, e) && u in nodes
    requires D(mesh, e) in nodes[u].seen ==> D(mesh, e) in n'.seen
    requires forall w :: OriginOf(origins, w, e) ==> OriginOf(origins', w, e)
    requires forall w :: w != u && OriginOf(origins', w, e) ==> OriginOf(origins, w, e)
    requires forall a, b :: b != u && InFlight(wire, a, b, e) ==> InFlight(wire', a, b, e)
    requires !Holder(mesh, nodes[u := n'], origins', u, e) ==>
      forall a, b :: InFlight(wire, a, b, e) ==> InFlight(wire', a, b, e)
    requires !Holder(mesh, nodes, origins, u, e) && Holder(mesh, nodes[u := n'], origins', u, e) ==>
      u in mesh.peers && u in mesh.interests &&
      (forall v :: v in Links(mesh, u, e.topic) && v != src ==> InFlight(wire', u, v, e)) &&
      (src in Links(mesh, u, e.topic) ==> Holder(mesh, nodes[u := n'], origins', src, e))
    ensures LinksServed(mesh, nodes[u := n'], origins', wire', e)
  {
    hide Links, D, OriginOf, InFlight;
    forall a, b |
      a in mesh.peers && a in mesh.interests && b in Links(mesh, a, e.topic) &&
      Holder(mesh, nodes[u := n'], origins', a, e)
      ensures Holder(mesh, nodes[u := n'], origins', b, e) || InFlight(wire', a, b, e)
    {
      if a != u || Holder(mesh, nodes, origins, u, e) {
        assert Holder(mesh, nodes, origins, a, e);
        if Holder(mesh, nodes, origins, b, e) {
          assert Holder(mesh, nodes[u := n'], origins', b, e);
        }
      }
    }
  }

  lemma SendersMove(
      mesh: Mesh, nodes: map<NodeId, Node>, origins: set<(NodeId, Envelope)>, sent: multiset<Message>,
      u: NodeId, n': Node, origins': set<(NodeId, Envelope)>, out: multiset<Message>, e: Envelope)
    requires SentByHolders(mesh, nodes, origins, sent, e) && u in nodes
    requires D(mesh, e) in nodes[u].seen ==> D(mesh, e) in n'.seen
    requires forall w :: OriginOf(origins, w, e) ==> OriginOf(origins', w, e)
    requires forall m :: m in out && Same(m.env, e) ==> m.src == u && Holder(mesh, nodes[u := n'], origins', u, e)
    ensures SentByHolders(mesh, nodes[u := n'], origins', sent + out, e)
  {
    hide D, OriginOf, Same;
  }

  lemma EmitContains(src: NodeId, targets: set<NodeId>, env: Envelope)
    ensures forall v :: v in targets ==> Message(src, v, env) in Emit(src, targets, env)
    ensures forall m :: m in Emit(src, targets, env) ==> m.src == src && m.env == env
  {
  }

  lemma OriginsGrow(origins: set<(NodeId, Envelope)>, u: NodeId, f: Envelope, e: Envelope)
    ensures forall w ::
      OriginOf(origins + {(u, f)}, w, e) <==> OriginOf(origins, w, e) || (w == u && Same(f, e) && !f.noGossip)
  {
    forall w
      ensures OriginOf(origins + {(u, f)}, w, e) <==> OriginOf(origins, w, e) || (w == u && Same(f, e) && !f.noGossip)
    {
      if OriginOf(origins, w, e) {
        var o :| o in origins && o.0 == w && Same(o.1, e) && !o.1.noGossip;
        assert o in origins + {(u, f)};
      }
      assert (u, f) in origins + {(u, f)};
    }
  }

  lemma FlightsKept(wire: multiset<Message>, wire': multiset<Message>, e: Envelope, u: NodeId)
    requires forall m :: m in wire && Same(m.env, e) && m.dst != u ==> m in wire'
    ensures forall a, b :: b != u && InFlight(wire, a, b, e) ==> InFlight(wire', a, b, e)
  {
  }

  lemma AllFlightsKept(wire: multiset<Message>, wire': multiset<Message>, e: Envelope)
    requires forall m :: m in wire && Same(m.env, e) ==> m in wire'
    ensures forall a, b :: InFlight(wire, a, b, e) ==> InFlight(wire', a, b, e)
  {
  }

  lemma Launched(wire': multiset<Message>, u: NodeId, targets: set<NodeId>, f: Envelope, e: Envelope)
    requires Same(f, e) && forall v :: v in targets ==> Message(u, v, f) in wire'
    ensures forall v :: v in targets ==> InFlight(wire', u, v, e)
  {
  }

  lemma NotOwnPeer(mesh: Mesh, u: NodeId, topic: string)
    requires WellFormed(mesh) && u in mesh.peers
    ensures "" !in Links(mesh, u, topic)
  {
  }

  // A broadcast of f by u changes u to n' and puts out on the wire.
  lemma BroadcastMoves(
      mesh: Mesh, universe: set<Envelope>, net: Net, e: Envelope, u: NodeId, f: Envelope, n': Node,
      out: multiset<Message>)
    requires WellFormed(mesh) && Spreading(mesh, universe, net, e) && f in universe
    requires u in net.nodes && u in mesh.peers && net.nodes[u].seen <= n'.seen
    requires KnowsFully(mesh.digest, universe, n', OriginOf(net.origins, u, e) || (Same(f, e) && !f.noGossip), e)
    requires forall x :: x in out ==> x.src == u && x.env == f && !f.noGossip
    requires f.noGossip || !Same(f, e) ==> (D(mesh, e) in n'.seen <==> D(mesh, e) in net.nodes[u].seen)
    requires Same(f, e) && !f.noGossip ==> forall v :: v in Links(mesh, u, e.topic) ==> Message(u, v, f) in out
    ensures Spreading(
      mesh, universe,
      Net(net.nodes[u := n'], net.wire + out, net.sent + out, net.delivered, net.origins + {(u, f)}), e)
  {
    NotOwnPeer(mesh, u, e.topic);
    OriginsGrow(net.origins, u, f, e);
    AllFlightsKept(net.wire, net.wire + out, e);
    hide Links, LinksServed, SentByHolders, KnowsFully, D, OriginOf, InFlight, Same;
    if Same(f, e) && !f.noGossip {
      Launched(net.wire + out, u, Links(mesh, u, e.topic), f, e);
    }
    SendersMove(mesh, net.nodes, net.origins, net.sent, u, n', net.origins + {(u, f)}, out, e);
    HoldersMove(mesh, net.nodes, net.origins, net.wire, u, n', net.origins + {(u, f)}, net.wire + out, e, "");
  }

  // A delivery of m changes its receiver to n' and puts out on the wire.
  lemma DeliveryMoves(
      mesh: Mesh, universe: set<Envelope>, net: Net, e: Envelope, m: Message, n': Node, out: multiset<Message>)
    requires WellFormed(mesh) && Spreading(mesh, universe, net, e)
    requires m in net.wire && m in net.sent && m.dst in net.nodes && m.dst in mesh.peers
    requires D(mesh, e) in net.nodes[m.dst].seen ==> D(mesh, e) in n'.seen
    requires KnowsFully(mesh.digest, universe, n', OriginOf(net.origins, m.dst, e), e)
    requires forall x :: x in out ==> x.src == m.dst && x.env == m.env
    requires !Same(m.env, e) ==> (D(mesh, e) in n'.seen <==> D(mesh, e) in net.nodes[m.dst].seen)
    requires Same(m.env, e) ==> D(mesh, e) in n'.seen
    requires Same(m.env, e) && D(mesh, e) !in net.nodes[m.dst].seen ==>
      forall v :: v in Links(mesh, m.dst, e.topic) - {m.src} ==> Message(m.dst, v, m.env) in out
    ensures Spreading(
      mesh, universe,
      Net(net.nodes[m.dst := n'], net.wire - multiset{m} + out, net.sent + out,
          net.delivered + multiset{m}, net.origins), e)
  {
    var u, wire' := m.dst, net.wire - multiset{m} + out;
    FlightsKept(net.wire, wire', e, u);
    if Same(m.env, e) {
      SenderHolds(mesh, net, m, e);
      if D(mesh, e) !in net.nodes[u].seen {
        Launched(wire', u, Links(mesh, u, e.topic) - {m.src}, m.env, e);
      }
    } else {
      AllFlightsKept(net.wire, wire', e);
    }
    hide Links, LinksServed, SentByHolders, KnowsFully, D, OriginOf, InFlight, Same;
    SendersMove(mesh, net.nodes, net.origins, net.sent, u, n', net.origins, out, e);
    HoldersMove(mesh, net.nodes, net.origins, net.wire, u, n', net.origins, wire', e, m.src);
  }

  lemma SenderHolds(mesh: Mesh, net: Net, m: Message, e: Envelope)
    requires SentByHolders(mesh, net.nodes, net.origins, net.sent, e) && m in net.sent && Same(m.env, e)
    ensures Holder(mesh, net.nodes, net.origins, m.src, e)
  {
  }

  lemma BroadcastSpreads(mesh: Mesh, universe: set<Envelope>, net: Net, e: Envelope, u: NodeId, f: Envelope)
    requires WellFormed(mesh) && Setting(mesh.digest, universe, e)
    requires Spreading(mesh, universe, net, e) && f in universe
    requires Enabled(mesh, net, Broadcast(u, f))
    ensures Spreading(mesh, universe, Step(mesh, net, Broadcast(u, f)), e)
  {
    hide Links, LinksServed, SentByHolders, Setting, KnowsFully, OriginOf, Same, Emit, DataKey, RawKey;
    var targets := if f.noGossip then {} else Links(mesh, u, f.topic);
    EmitContains(u, targets, f);
    NoneEmitted(u, f);
    if Same(f, e) {
      SameKeys(f, e);
    }
    MarkKeepsKnowledge(mesh.digest, universe, net.nodes[u], mesh.rules[u], OriginOf(net.origins, u, e), e, f);
    BroadcastMoves(mesh, universe, net, e, u, f, Marked(mesh.rules[u], net.nodes[u], f), Emit(u, targets, f));
  }

  lemma NoneEmitted(u: NodeId, f: Envelope)
    ensures Emit(u, {}, f) == multiset{}
  {
  }

  lemma OtherDeliverySpreads(mesh: Mesh, universe: set<Envelope>, net: Net, e: Envelope, m: Message)
    requires WellFormed(mesh) && Safe(mesh, net) && Setting(mesh.digest, universe, e)
    requires Spreading(mesh, universe, net, e) && Enabled(mesh, net, Deliver(m)) && !Same(m.env, e)
    ensures Spreading(mesh, universe, Step(mesh, net, Deliver(m)), e)
  {
    hide LinksServed, SentByHolders, Setting, KnowsFully, OriginOf, Same, Emit, DataKey, IdentityKey, Handle,
      IngestsOnce, ProperlySent, ForwardedTo;
    var u := m.dst;
    var (n', verdict) := Handle(mesh.rules[u], net.nodes[u], m.env, {});
    var targets := ForwardedTo(mesh, u, m.src, m.env, verdict);
    assert m in net.sent;
    OtherKeepsKnowledge(mesh.digest, universe, net.nodes[u], mesh.rules[u], OriginOf(net.origins, u, e), e, m.env);
    EmitContains(u, targets, m.env);
    DeliveryMoves(mesh, universe, net, e, m, n', Emit(u, targets, m.env));
  }

  lemma OwnDeliverySpreads(mesh: Mesh, universe: set<Envelope>, net: Net, e: Envelope, m: Message)
    requires WellFormed(mesh) && Safe(mesh, net) && Setting(mesh.digest, universe, e)
    requires Spreading(mesh, universe, net, e) && Enabled(mesh, net, Deliver(m)) && Same(m.env, e)
    ensures Spreading(mesh, universe, Step(mesh, net, Deliver(m)), e)
  {
    hide LinksServed, SentByHolders, Setting, KnowsFully, OriginOf, Same, Emit, DataKey, IdentityKey, Handle,
      IngestsOnce, ProperlySent, Interested;
    var u := m.dst;
    var (n', verdict) := Handle(mesh.rules[u], net.nodes[u], m.env, {});
    var targets := ForwardedTo(mesh, u, m.src, m.env, verdict);
    assert m in net.sent;
    SameKeys(m.env, e);
    CopyIsProcessed(mesh.digest, universe, net.nodes[u], mesh.rules[u], OriginOf(net.origins, u, e), e, m.env);
    EmitContains(u, targets, m.env);
    DeliveryMoves(mesh, universe, net, e, m, n', Emit(u, targets, m.env));
  }

  lemma DropSpreads(mesh: Mesh, universe: set<Envelope>, net: Net, e: Envelope, m: Message)
    requires WellFormed(mesh) && Spreading(mesh, universe, net, e) && Enabled(mesh, net, Drop(m)) && !Same(m.env, e)
    ensures Spreading(mesh, universe, Step(mesh, net, Drop(m)), e)
  {
    AllFlightsKept(net.wire, net.wire - multiset{m}, e);
    hide Links, InFlight, Same, OriginOf, KnowsFully, D;
  }

  lemma StepSpreads(mesh: Mesh, universe: set<Envelope>, net: Net, e: Envelope, ev: Event)
    requires WellFormed(mesh) && Safe(mesh, net) && Setting(mesh.digest, universe, e)
    requires Spreading(mesh, universe, net, e) && Enabled(mesh, net, ev)
    requires ev.Broadcast? ==> ev.env in universe
    requires ev.Drop? ==> !Same(ev.m.env, e)
    ensures Spreading(mesh, universe, Step(mesh, net, ev), e)
  {
    hide Safe, Setting, Spreading, Step, Same;
    match ev
    case Broadcast(u, f) => BroadcastSpreads(mesh, universe, net, e, u, f);
    case Drop(m) => DropSpreads(mesh, universe, net, e, m);
    case Deliver(m) =>
      if Same(m.env, e) {
        OwnDeliverySpreads(mesh, universe, net, e, m);
      } else {
        OtherDeliverySpreads(mesh, universe, net, e, m);
      }
  }

  /** Every envelope the run broadcasts is in the universe, and no copy of e is dropped. */
  ghost predicate Faithful(events: seq<Event>, universe: set<Envelope>, e: Envelope) {
    forall i :: 0 <= i < |events| ==>
      (events[i].Broadcast? ==> events[i].env in universe) && (events[i].Drop? ==> !Same(events[i].m.env, e))
  }

  /** At every moment each interested link out of a node that has e is served, or has it in flight. */
  lemma {:induction false} RunSpreads(mesh: Mesh, universe: set<Envelope>, events: seq<Event>, e: Envelope)
    requires WellFormed(mesh) && Legal(mesh, events)
    requires Setting(mesh.digest, universe, e) && Faithful(events, universe, e)
    ensures Spreading(mesh, universe, Run(mesh, events), e)
  {
    hide Setting, Step, Same, Safe;
    if events == [] {
      NothingSpreads(mesh, universe, e);
    } else {
      var init := events[..|events| - 1];
      RunSpreads(mesh, universe, init, e);
      RunStaysSafe(mesh, init);
      StepSpreads(mesh, universe, Run(mesh, init), e, events[|events| - 1]);
    }
  }

  lemma NothingSpreads(mesh: Mesh, universe: set<Envelope>, e: Envelope)
    ensures Spreading(mesh, universe, Start(mesh), e)
  {
    hide Links, D;
  }

  /** A path along links that match the topic. */
  ghost predicate IsPath(mesh: Mesh, topic: string, path: seq<NodeId>) {
    && path != []
    && (forall i :: 0 <= i < |path| ==> path[i] in mesh.peers && path[i] in mesh.interests)
    && (forall i :: 0 < i < |path| ==> path[i] in Links(mesh, path[i - 1], topic))
  }

  /** u ingested or broadcast e, up to the case of its pubkey. */
  predicate Holds(net: Net, u: NodeId, e: Envelope) {
    u in net.nodes && (HasIn(net.nodes[u].ingested, e) || OriginOf(net.origins, u, e))
  }

  ghost predicate LeadsTo(mesh: Mesh, events: seq<Event>, net: Net)
    requires WellFormed(mesh)
  {
    Legal(mesh, events) && net == Run(mesh, events)
  }

  ghost predicate Quiet(net: Net, e: Envelope) {
    forall m :: m in net.wire ==> !Same(m.env, e)
  }

  lemma {:induction false} ReachedAlong(mesh: Mesh, net: Net, e: Envelope, path: seq<NodeId>)
    requires LinksServed(mesh, net.nodes, net.origins, net.wire, e) && net.nodes.Keys == mesh.peers.Keys
    requires Quiet(net, e) && IsPath(mesh, e.topic, path) && OriginOf(net.origins, path[0], e)
    ensures Holder(mesh, net.nodes, net.origins, path[|path| - 1], e)
  {
    hide D, Links, Same, OriginOf;
    if |path| > 1 {
      var init := path[..|path| - 1];
      ReachedAlong(mesh, net, e, init);
      assert path[|path| - 1] in Links(mesh, init[|init| - 1], e.topic);
    }
  }

  /** Once no copy of e is in flight, every node reachable from a broadcaster along interested links holds it. */
  lemma QuiescentFloodCovers(
      mesh: Mesh, universe: set<Envelope>, events: seq<Event>, net: Net, e: Envelope, path: seq<NodeId>)
    requires WellFormed(mesh) && LeadsTo(mesh, events, net)
    requires Setting(mesh.digest, universe, e) && Faithful(events, universe, e)
    requires IsPath(mesh, e.topic, path)
    requires Quiet(net, e) && OriginOf(net.origins, path[0], e)
    ensures Holds(net, path[|path| - 1], e)
  {
    RunSpreads(mesh, universe, events, e);
    RunStaysSafe(mesh, events);
    hide Setting, Faithful, IsPath, OriginOf, Links, Run, Legal;
    ReachedAlong(mesh, net, e, path);
  }
}
