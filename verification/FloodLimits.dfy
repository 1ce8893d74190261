/** What keeps a flood from reaching a node: exactly a badly signed copy, or a third payload. */
module FloodLimits {
  import opened Gossip
  import opened Flood
  import opened FloodCopies
  import opened FloodCoverage
  import opened DedupKeys
  import opened Hex

  /** Every flood of e over these envelopes, on any mesh, covers what it can reach. */
  ghost predicate AlwaysCovers(digest: string -> Digest, universe: set<Envelope>, e: Envelope) {
    forall mesh, events, net, path :: Scenario(digest, universe, e, mesh, events, net, path) ==>
      path != [] && Holds(net, path[|path| - 1], e)
  }

  /** A run that has come to rest, after a broadcast of e at the beginning of the path. */
  ghost predicate Scenario(
      digest: string -> Digest, universe: set<Envelope>, e: Envelope,
      mesh: Mesh, events: seq<Event>, net: Net, path: seq<NodeId>) {
    && WellFormed(mesh) && mesh.digest == digest && LeadsTo(mesh, events, net) && Faithful(events, universe, e)
    && IsPath(mesh, e.topic, path) && Quiet(net, e) && OriginOf(net.origins, path[0], e)
  }

  /** A digest without collisions tells envelopes apart whose topics have equally many colons and pubkeys none. */
  lemma PlainEnvelopesAreTold(digest: string -> Digest, universe: set<Envelope>, colons: nat)
    requires CollisionFree(digest)
    requires forall f :: f in universe ==> ':' !in f.pubkey && Colons(f.topic) == colons
    ensures Distinguishes(digest, universe)
  {
    hide Text, CollisionFree;
    forall f, g, a, b |
      f in universe && g in universe && a in KeysOf(f) && b in KeysOf(g) && digest(Text(a)) == digest(Text(b))
      ensures a == b
    {
      assert Text(a) == Text(b) by { NoCollision(digest, Text(a), Text(b)); }
      PlainKeys(f, a);
      PlainKeys(g, b);
      EqualColonsSeparate(a, b);
    }
  }

  lemma NoCollision(digest: string -> Digest, s: string, t: string)
    requires CollisionFree(digest) && digest(s) == digest(t)
    ensures s == t
  {
  }

  lemma PlainKeys(f: Envelope, a: Fields)
    requires ':' !in f.pubkey && a in KeysOf(f)
    ensures ':' !in a.pubkey && a.topic == f.topic
  {
    assert forall i :: 0 <= i < |f.pubkey| ==> f.pubkey[i] != ':' && Lower(f.pubkey[i]) != ':';
  }

  // ------------------------------------------------------ a mesh of one link

  const A: NodeId := "a"
  const B: NodeId := "b"

  /** a sends b every topic, and b sends nothing. */
  function OneLink(digest: string -> Digest): Mesh {
    Mesh(map[A := {B}, B := {}], map[A := map[B := [""]], B := map[]],
         map[A := Rules(digest, {}, 0), B := Rules(digest, {}, 0)], digest)
  }

  lemma OneLinkLinks(digest: string -> Digest, topic: string)
    ensures WellFormed(OneLink(digest))
    ensures Links(OneLink(digest), A, topic) == {B}
    ensures forall src :: Targets(OneLink(digest).peers[B], OneLink(digest).interests[B], src, topic) == {}
  {
    var mesh := OneLink(digest);
    assert mesh.peers[A] == {B} && mesh.peers[B] == {} && mesh.interests[A] == map[B := [""]];
    assert mesh.interests[A][B][0] <= topic;
    assert Interested(mesh.interests[A], B, topic);
  }

  /** a broadcasts f and b handles it. */
  function Hop(f: Envelope): seq<Event> {
    [Broadcast(A, f), Deliver(Message(A, B, f))]
  }

  function Hops(fs: seq<Envelope>): seq<Event> {
    if fs == [] then [] else Hops(fs[..|fs| - 1]) + Hop(fs[|fs| - 1])
  }

  function HandleAll(digest: string -> Digest, fs: seq<Envelope>): Node {
    if fs == [] then Node({}, map[], {}, [])
    else Handle(Rules(digest, {}, 0), HandleAll(digest, fs[..|fs| - 1]), fs[|fs| - 1], {}).0
  }

  ghost predicate AtRest(digest: string -> Digest, net: Net, fs: seq<Envelope>) {
    && net.wire == multiset{} && net.nodes.Keys == {A, B} && net.nodes[B] == HandleAll(digest, fs)
    && (forall o :: o in net.origins <==> o.0 == A && o.1 in fs)
  }

  lemma HopStep(digest: string -> Digest, net: Net, fs: seq<Envelope>, f: Envelope)
    requires AtRest(digest, net, fs) && !f.noGossip
    ensures WellFormed(OneLink(digest)) && Enabled(OneLink(digest), net, Broadcast(A, f))
    ensures var sent := Step(OneLink(digest), net, Broadcast(A, f));
      && Enabled(OneLink(digest), sent, Deliver(Message(A, B, f)))
      && AtRest(digest, Step(OneLink(digest), sent, Deliver(Message(A, B, f))), fs + [f])
  {
    var mesh, m := OneLink(digest), Message(A, B, f);
    OneLinkLinks(digest, f.topic);
    hide Handle, Marked, Links, Targets, RawKey;
    assert Emit(A, {B}, f) == multiset{m} by { OneEmitted(f); }
    var sent := Step(mesh, net, Broadcast(A, f));
    assert sent.wire == multiset{m};
    assert Emit(B, {}, f) == multiset{} by { NoneEmitted(B, f); }
    assert (fs + [f])[..|fs|] == fs;
  }

  lemma OneEmitted(f: Envelope)
    ensures Emit(A, {B}, f) == multiset{Message(A, B, f)}
  {
    assert (set v | v in {B} :: Message(A, v, f)) == {Message(A, B, f)};
  }

  lemma HopsLast(fs: seq<Envelope>)
    requires fs != []
    ensures var init, f := fs[..|fs| - 1], fs[|fs| - 1];
      Hops(fs) == Hops(init) + [Broadcast(A, f)] + [Deliver(Message(A, B, f))] && init + [f] == fs
  {
  }

  lemma {:induction false} HopsRest(digest: string -> Digest, mesh: Mesh, fs: seq<Envelope>)
    requires forall i :: 0 <= i < |fs| ==> !fs[i].noGossip
    requires mesh == OneLink(digest) && WellFormed(mesh)
    ensures Legal(mesh, Hops(fs)) && AtRest(digest, Run(mesh, Hops(fs)), fs)
  {
    if fs == [] {
      RestAtStart(digest);
    } else {
      hide AtRest, Step, OneLink, Hops, WellFormed, Run, Legal;
      var init, f := fs[..|fs| - 1], fs[|fs| - 1];
      HopsRest(digest, mesh, init);
      HopStep(digest, Run(mesh, Hops(init)), init, f);
      HopsLast(fs);
      RunAppend(mesh, Hops(init), Broadcast(A, f));
      RunAppend(mesh, Hops(init) + [Broadcast(A, f)], Deliver(Message(A, B, f)));
    }
  }

  lemma RestAtStart(digest: string -> Digest)
    ensures AtRest(digest, Start(OneLink(digest)), [])
  {
  }

  lemma {:induction false} HopsAreFaithful(fs: seq<Envelope>, universe: set<Envelope>, e: Envelope)
    requires forall i :: 0 <= i < |fs| ==> fs[i] in universe
    ensures Faithful(Hops(fs), universe, e)
  {
    if fs != [] {
      HopsAreFaithful(fs[..|fs| - 1], universe, e);
    }
  }

  // What b handles, e among it, makes a scenario; b holds e only if it ingested it.
  lemma HopsScenario(digest: string -> Digest, universe: set<Envelope>, e: Envelope, fs: seq<Envelope>)
      returns (net: Net)
    requires forall i :: 0 <= i < |fs| ==> fs[i] in universe && !fs[i].noGossip
    requires e in fs && !e.noGossip
    ensures WellFormed(OneLink(digest)) && Scenario(digest, universe, e, OneLink(digest), Hops(fs), net, [A, B])
    ensures Holds(net, B, e) <==> HasIn(HandleAll(digest, fs).ingested, e)
  {
    var mesh := OneLink(digest);
    OneLinkLinks(digest, e.topic);
    HopsRest(digest, mesh, fs);
    HopsAreFaithful(fs, universe, e);
    net := Run(mesh, Hops(fs));
    OnePath(digest, e.topic);
    hide Run, Legal, Faithful, Hops, HandleAll, Links, HasIn, Same, OneLink, IsPath, WellFormed;
    assert (A, e) in net.origins && OriginOf(net.origins, A, e) by { SameAsItself(e); }
  }

  lemma OnePath(digest: string -> Digest, topic: string)
    ensures IsPath(OneLink(digest), topic, [A, B])
  {
    OneLinkLinks(digest, topic);
    hide Links;
  }

  lemma SameAsItself(e: Envelope)
    ensures Same(e, e)
  {
  }

  // -------------------------------------------------- the two suppressions

  const FRESH := Node({}, map[], {}, [])

  /** b's node after it handles one more envelope. */
  function Handled(digest: string -> Digest, n: Node, f: Envelope): Node {
    Handle(Rules(digest, {}, 0), n, f, {}).0
  }

  lemma HandleAllSteps(digest: string -> Digest, f: Envelope, g: Envelope, e: Envelope)
    ensures HandleAll(digest, [f, e]) == Handled(digest, Handled(digest, FRESH, f), e)
    ensures HandleAll(digest, [f, g, e]) == Handled(digest, Handled(digest, Handled(digest, FRESH, f), g), e)
  {
    hide Handle;
    HandleAllLast(digest, [], f);
    HandleAllLast(digest, [f], g);
    HandleAllLast(digest, [f], e);
    HandleAllLast(digest, [f, g], e);
    assert [] + [f] == [f] && [f] + [g] == [f, g] && [f] + [e] == [f, e] && [f, g] + [e] == [f, g, e];
  }

  lemma HandleAllLast(digest: string -> Digest, fs: seq<Envelope>, f: Envelope)
    ensures HandleAll(digest, []) == FRESH
    ensures HandleAll(digest, fs + [f]) == Handled(digest, HandleAll(digest, fs), f)
  {
    hide Handle;
    assert (fs + [f])[..|fs|] == fs;
  }

  lemma BadThenGood(digest: string -> Digest, bad: Envelope, e: Envelope)
    requires DataKey(bad) == DataKey(e) && !bad.wellFormed
    ensures Handled(digest, Handled(digest, FRESH, bad), e).ingested == []
  {
    hide DataKey, IdentityKey;
  }

  /** A badly signed copy that comes first is marked as seen before it is checked, and e is then a duplicate. */
  lemma BadCopySuppresses(digest: string -> Digest, universe: set<Envelope>, e: Envelope, bad: Envelope)
      returns (net: Net)
    requires e in universe && bad in universe && !e.noGossip && !bad.noGossip
    requires Same(bad, e) && !bad.wellFormed
    ensures WellFormed(OneLink(digest))
    ensures Scenario(digest, universe, e, OneLink(digest), Hops([bad, e]), net, [A, B]) && !Holds(net, B, e)
  {
    SameKeys(bad, e);
    BadThenGood(digest, bad, e);
    HandleAllSteps(digest, bad, bad, e);
    hide *;
    hide HasIn;
    net := HopsScenario(digest, universe, e, [bad, e]);
    NoneIn(e);
  }

  lemma NoneIn(e: Envelope)
    ensures !HasIn([], e)
  {
  }

  lemma HandledStaysOut(digest: string -> Digest, n: Node, f: Envelope, e: Envelope)
    requires !HasIn(n.ingested, e) && !Same(f, e)
    ensures !HasIn(Handled(digest, n, f).ingested, e)
  {
    hide Handle, Same;
    HandleEffect(Rules(digest, {}, 0), n, f);
  }

  lemma FirstHandled(digest: string -> Digest, f: Envelope)
    ensures var n := Handled(digest, FRESH, f);
      n.seen == {digest(DataKey(f)), digest(IdentityKey(f))} && n.dupCounts == map[] && n.dupReported == {}
  {
    hide DataKey, IdentityKey;
  }

  lemma SecondHandled(digest: string -> Digest, n: Node, g: Envelope)
    requires digest(DataKey(g)) !in n.seen && digest(IdentityKey(g)) in n.seen && n.dupCounts == map[]
    ensures var n' := Handled(digest, n, g);
      && n'.seen == n.seen + {digest(DataKey(g))} && n'.dupReported == n.dupReported
      && Count(n'.dupCounts, digest(IdentityKey(g))) == 1
  {
    hide DataKey, IdentityKey;
  }

  lemma ThirdHandled(digest: string -> Digest, n: Node, e: Envelope)
    requires digest(DataKey(e)) !in n.seen && digest(IdentityKey(e)) in n.seen
    requires Count(n.dupCounts, digest(IdentityKey(e))) == 1 && n.dupReported == {}
    ensures Handled(digest, n, e).ingested == n.ingested
  {
    hide DataKey, IdentityKey;
  }

  lemma ThirdIsReported(digest: string -> Digest, f: Envelope, g: Envelope, e: Envelope)
    requires IdentityKey(f) == IdentityKey(e) && IdentityKey(g) == IdentityKey(e)
    requires digest(DataKey(g)) != digest(DataKey(f)) && digest(DataKey(g)) != digest(IdentityKey(e))
    requires digest(DataKey(e)) !in {digest(DataKey(f)), digest(DataKey(g)), digest(IdentityKey(e))}
    requires !Same(f, e) && !Same(g, e)
    ensures !HasIn(Handled(digest, Handled(digest, Handled(digest, FRESH, f), g), e).ingested, e)
  {
    hide DataKey, IdentityKey, Same, Handled;
    var first := Handled(digest, FRESH, f);
    FirstHandled(digest, f);
    SecondHandled(digest, first, g);
    ThirdHandled(digest, Handled(digest, first, g), e);
    HandledStaysOut(digest, FRESH, f, e);
    HandledStaysOut(digest, first, g, e);
  }

  // Two other payloads handled first make e the third, which is reported and not ingested.
  lemma TwoRivalsSuppress(
      digest: string -> Digest, universe: set<Envelope>, e: Envelope, f: Envelope, g: Envelope)
      returns (net: Net)
    requires Floods(universe, e) && Distinguishes(digest, universe)
    requires f in universe && g in universe && !f.noGossip && !g.noGossip
    requires Rivals(f, e) && Rivals(g, e) && !Same(f, g) && g.payload != ""
    ensures WellFormed(OneLink(digest))
    ensures Scenario(digest, universe, e, OneLink(digest), Hops([f, g, e]), net, [A, B]) && !Holds(net, B, e)
  {
    hide *;
    RivalFacts(universe, e, f, g);
    KeysOfRivals(digest, universe, e, f, g);
    ThirdIsReported(digest, f, g, e);
    HandleAllSteps(digest, f, g, e);
    net := HopsScenario(digest, universe, e, [f, g, e]);
  }

  lemma RivalFacts(universe: set<Envelope>, e: Envelope, f: Envelope, g: Envelope)
    requires Floods(universe, e) && Rivals(f, e) && Rivals(g, e)
    ensures e in universe && !e.noGossip && !Same(f, e) && !Same(g, e)
  {
  }

  lemma KeysOfRivals(digest: string -> Digest, universe: set<Envelope>, e: Envelope, f: Envelope, g: Envelope)
    requires Floods(universe, e) && Distinguishes(digest, universe)
    requires f in universe && g in universe && Rivals(f, e) && Rivals(g, e) && !Same(f, g) && g.payload != ""
    ensures IdentityKey(f) == IdentityKey(e) && IdentityKey(g) == IdentityKey(e)
    ensures digest(DataKey(g)) != digest(DataKey(f)) && digest(DataKey(g)) != digest(IdentityKey(e))
    ensures digest(DataKey(e)) !in {digest(DataKey(f)), digest(DataKey(g)), digest(IdentityKey(e))}
  {
    hide Text;
    assert DataFields(f) in KeysOf(f) && DataFields(g) in KeysOf(g) && DataFields(e) in KeysOf(e);
    assert IdentityFields(e) in KeysOf(e);
  }

  // ------------------------------------------------------ exactly these two

  /** Every flood of e covers what it can reach exactly when no gossiped copy of e is badly signed and e has at most one
      gossiped rival payload. */
  lemma CoversExactly(digest: string -> Digest, universe: set<Envelope>, e: Envelope)
    requires Floods(universe, e) && Distinguishes(digest, universe)
    ensures AlwaysCovers(digest, universe, e) <==> Undisturbed(universe, e)
  {
    if Undisturbed(universe, e) {
      UndisturbedCovers(digest, universe, e);
    } else {
      DisturbedFails(digest, universe, e);
    }
  }

  lemma UndisturbedCovers(digest: string -> Digest, universe: set<Envelope>, e: Envelope)
    requires Setting(digest, universe, e)
    ensures AlwaysCovers(digest, universe, e)
  {
    hide Setting, IsPath, Holds, LeadsTo, Faithful, OriginOf, Quiet, WellFormed;
    forall mesh, events, net, path | Scenario(digest, universe, e, mesh, events, net, path)
      ensures path != [] && Holds(net, path[|path| - 1], e)
    {
      PathHasEnd(mesh, e.topic, path);
      QuiescentFloodCovers(mesh, universe, events, net, e, path);
    }
  }

  lemma PathHasEnd(mesh: Mesh, topic: string, path: seq<NodeId>)
    requires IsPath(mesh, topic, path)
    ensures path != []
  {
  }

  lemma DisturbedFails(digest: string -> Digest, universe: set<Envelope>, e: Envelope)
    requires Floods(universe, e) && Distinguishes(digest, universe) && !Undisturbed(universe, e)
    ensures !AlwaysCovers(digest, universe, e)
  {
    hide Distinguishes, Same, AlwaysCovers, Scenario, Holds, Hops, WellFormed, OneLink, IdentityFields;
    if bad :| bad in universe && !bad.noGossip && Same(bad, e) && !bad.wellFormed {
      var net := BadCopySuppresses(digest, universe, e, bad);
      Uncovered(digest, universe, e, Hops([bad, e]), net);
    } else {
      var f, g :|
        f in universe && g in universe && !f.noGossip && !g.noGossip && Rivals(f, e) && Rivals(g, e) && !Same(f, g);
      if g.payload != "" {
        var net := TwoRivalsSuppress(digest, universe, e, f, g);
        Uncovered(digest, universe, e, Hops([f, g, e]), net);
      } else {
        OneOfTwoHasPayload(e, f, g);
        var net := TwoRivalsSuppress(digest, universe, e, g, f);
        Uncovered(digest, universe, e, Hops([g, f, e]), net);
      }
    }
  }

  lemma OneOfTwoHasPayload(e: Envelope, f: Envelope, g: Envelope)
    requires Rivals(f, e) && Rivals(g, e) && !Same(f, g) && g.payload == ""
    ensures f.payload != "" && !Same(g, f)
  {
  }

  lemma Uncovered(digest: string -> Digest, universe: set<Envelope>, e: Envelope, events: seq<Event>, net: Net)
    requires WellFormed(OneLink(digest))
    requires Scenario(digest, universe, e, OneLink(digest), events, net, [A, B]) && !Holds(net, B, e)
    ensures !AlwaysCovers(digest, universe, e)
  {
    hide Scenario, Holds, OneLink, WellFormed;
    var path := [A, B];
    assert path[|path| - 1] == B;
  }
}
