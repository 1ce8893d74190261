/** The directory of SHIP peers (internal/overlay/directory.go). */
module ShipDirectory {
  import opened Texts

  /** Instants; Go's zero time is 0. */
  type Time = int

  /** PeerEntry */
  datatype Entry = Entry(
    identity: string, domain: string, nodeName: string, version: string, topic: string,
    txid: string, outputIndex: int, discoveredAt: Time, lastSeen: Time)

  type Entries = map<string, Entry>

  /** Keys use the first 16 characters of an identity. */
  function Short(identity: string): (short: string)
    ensures short <= identity && |short| == if |identity| < 16 then |identity| else 16
  {
    if |identity| > 16 then identity[..16] else identity
  }

  function TopicPrefix(topic: string): string {
    "ship:" + topic + ":"
  }

  /** shipKey */
  function ShipKey(topic: string, identity: string): string {
    TopicPrefix(topic) + Short(identity)
  }

  function KeyOf(e: Entry): string {
    ShipKey(e.topic, e.identity)
  }

  // ------------------------------------------------- what operations delete

  /** Another identity under the same domain, as removeStaleDomainLocked finds it by a scan of the topic's prefix. */
  predicate Displaced(k: string, held: Entry, topic: string, domain: string, identity: string) {
    TopicPrefix(topic) <= k && held.domain == domain && held.identity != identity
  }

  predicate Expired(e: Entry, cutoff: Time) {
    (if e.lastSeen == 0 then e.discoveredAt else e.lastSeen) < cutoff
  }

  /** A local domain held by an identity that is no longer the node's own. */
  predicate Rekeyed(e: Entry, localDomains: map<string, string>) {
    e.domain in localDomains && e.identity != localDomains[e.domain]
  }

  predicate HeldBy(e: Entry, identity: string) {
    e.identity == identity
  }

  function Registered(db: Entries, e: Entry): Entries {
    (map k | k in db && !Displaced(k, db[k], e.topic, e.domain, e.identity) :: db[k])[KeyOf(e) := e]
  }

  function Swept(db: Entries, cutoff: Time): Entries {
    map k | k in db && !Expired(db[k], cutoff) :: db[k]
  }

  function CleanedUp(db: Entries, cutoff: Time, localDomains: map<string, string>): Entries {
    map k | k in db && !Expired(db[k], cutoff) && !Rekeyed(db[k], localDomains) :: db[k]
  }

  function WithoutIdentity(db: Entries, identity: string): Entries {
    map k | k in db && !HeldBy(db[k], identity) :: db[k]
  }

  /** The entry is stored under the key of its topic and the first 16 characters of its identity. Another entry is kept
      as it is unless its key begins with the topic and it holds the same domain for another identity. */
  ghost predicate Stored(before: Entries, after: Entries, e: Entry) {
    var key := "ship:" + e.topic + ":" + Short(e.identity);
    && key in after && after[key] == e
    && (forall k :: k != key ==>
          (k in after <==>
             && k in before
             && !("ship:" + e.topic + ":" <= k && before[k].domain == e.domain && before[k].identity != e.identity)))
    && (forall k :: k in after && k != key ==> after[k] == before[k])
  }

  class Directory {
    var db: Entries
    const ttl: Time

    constructor (ttl: Time)
      ensures db == map[] && this.ttl == ttl
    {
      this.ttl := ttl;
      db := map[];
    }

    method RemoveStaleDomain(topic: string, domain: string, currentIdentity: string)
      modifies this`db
      ensures db == map k | k in old(db) && !Displaced(k, old(db)[k], topic, domain, currentIdentity) :: old(db)[k]
    {
      var toDelete, found := Collect((k, e: Entry) => Displaced(k, e, topic, domain, currentIdentity));
      Delete(toDelete, found);
    }

    /** One scan: the keys of the entries that match, to be deleted after it. */
    method Collect(matches: (string, Entry) -> bool) returns (toDelete: seq<string>, ghost found: set<string>)
      ensures forall k :: k in found <==> k in db && matches(k, db[k])
      ensures |toDelete| == |found| && forall k :: k in toDelete <==> k in found
      ensures forall k :: k in toDelete <==> k in db && matches(k, db[k])
    {
      toDelete, found := [], {};
      var rest := db.Keys;
      while rest != {}
        invariant rest <= db.Keys
        invariant forall k :: k in found <==> k in db && k !in rest && matches(k, db[k])
        invariant |toDelete| == |found| && forall k :: k in toDelete <==> k in found
        decreases rest
      {
        var k :| k in rest;
        rest := rest - {k};
        if matches(k, db[k]) {
          toDelete, found := toDelete + [k], found + {k};
        }
      }
    }

    method Delete(keys: seq<string>, ghost found: set<string>)
      requires |keys| == |found| && (forall k :: k in keys <==> k in found) && found <= db.Keys
      modifies this`db
      ensures db == old(db) - found && |keys| + |db| == |old(db)|
    {
      ghost var gone: set<string> := {};
      for i := 0 to |keys|
        invariant db == old(db) - gone
        invariant forall k :: k in gone <==> k in keys[..i]
      {
        db := db - {keys[i]};
        gone := gone + {keys[i]};
        assert keys[..i + 1] == keys[..i] + [keys[i]];
      }
      assert keys[..|keys|] == keys;
      assert gone == found;
      CountRemoved(old(db), found);
    }

    /** Refused when the script is not a valid token. */
    method AddSHIPPeer(entry: Entry, validToken: bool, now: Time) returns (ok: bool)
      modifies this`db
      ensures ok == validToken
      ensures !ok ==> db == old(db)
      ensures ok ==> Stored(old(db), db, entry.(lastSeen := now))
      ensures db == if validToken then Registered(old(db), entry.(lastSeen := now)) else old(db)
    {
      if !validToken {
        return false;
      }
      var e := entry.(lastSeen := now);
      RemoveStaleDomain(e.topic, e.domain, e.identity);
      db := db[ShipKey(e.topic, e.identity) := e];
      return true;
    }

    method AddSHIPPeerFromGossip(
        identity: string, domain: string, nodeName: string, version: string, topic: string, now: Time)
      modifies this`db
      ensures Stored(old(db), db, Entry(identity, domain, nodeName, version, topic, "gossip", 0, now, now))
      ensures db == Registered(old(db), Entry(identity, domain, nodeName, version, topic, "gossip", 0, now, now))
    {
      var e := Entry(identity, domain, nodeName, version, topic, "gossip", 0, now, now);
      RemoveStaleDomain(topic, domain, identity);
      db := db[ShipKey(topic, identity) := e];
    }

    method SweepExpired(now: Time) returns (removed: nat)
      modifies this`db
      ensures forall k :: k in db <==>
        && k in old(db)
        && (if old(db)[k].lastSeen != 0 then old(db)[k].lastSeen else old(db)[k].discoveredAt) >= now - ttl
      ensures forall k :: k in db ==> db[k] == old(db)[k]
      ensures db == Swept(old(db), now - ttl)
      ensures removed + |db| == |old(db)|
    {
      var cutoff := now - ttl;
      var toDelete, found := Collect((k, e: Entry) => Expired(e, cutoff));
      Delete(toDelete, found);
      removed := |toDelete|;
    }

    method CleanupOnBoot(localDomains: map<string, string>, now: Time) returns (removed: nat)
      modifies this`db
      ensures forall k :: k in db <==>
        && k in old(db)
        && (if old(db)[k].lastSeen != 0 then old(db)[k].lastSeen else old(db)[k].discoveredAt) >= now - ttl
        && (old(db)[k].domain in localDomains ==> localDomains[old(db)[k].domain] == old(db)[k].identity)
      ensures forall k :: k in db ==> db[k] == old(db)[k]
      ensures db == CleanedUp(old(db), now - ttl, localDomains)
      ensures removed + |db| == |old(db)|
    {
      var cutoff := now - ttl;
      var toDelete, found := Collect((k, e: Entry) => Expired(e, cutoff) || Rekeyed(e, localDomains));
      Delete(toDelete, found);
      removed := |toDelete|;
    }

    method RemoveSHIPPeerByIdentity(identity: string)
      modifies this`db
      ensures forall k :: k in db <==> k in old(db) && old(db)[k].identity != identity
      ensures forall k :: k in db ==> db[k] == old(db)[k]
      ensures db == WithoutIdentity(old(db), identity)
    {
      var toDelete, found := Collect((k, e: Entry) => HeldBy(e, identity));
      Delete(toDelete, found);
    }

    method RemoveSHIPPeer(topic: string, identityPub: string)
      modifies this`db
      ensures db == old(db) - {ShipKey(topic, identityPub)}
      ensures OwnKeys(old(db)) ==>
        OwnKeys(db) && forall k :: k in db && db[k].topic == topic ==> Short(db[k].identity) != Short(identityPub)
    {
      if OwnKeys(db) {
        RemovedPeerIsGone(db, topic, identityPub);
      }
      db := db - {ShipKey(topic, identityPub)};
    }
  }

  lemma CountRemoved(db: Entries, gone: set<string>)
    requires gone <= db.Keys
    ensures |gone| + |db - gone| == |db|
  {
    assert db.Keys == gone + (db - gone).Keys;
  }

  // -------------------------------------------------- one peer per domain

  ghost predicate OwnKeys(db: Entries) {
    forall k :: k in db ==> k == KeyOf(db[k])
  }

  ghost predicate OnePerDomain(db: Entries) {
    forall j, k :: j in db && k in db && db[j].topic == db[k].topic && db[j].domain == db[k].domain ==> j == k
  }

  ghost predicate OnePerShortIdentity(db: Entries) {
    forall j, k :: j in db && k in db && db[j].topic == db[k].topic && Short(db[j].identity) == Short(db[k].identity)
      ==> j == k
  }

  ghost predicate Tidy(db: Entries) {
    OwnKeys(db) && OnePerDomain(db)
  }

  /** Which the key alone ensures. */
  lemma KeysSeparateIdentities(db: Entries)
    requires OwnKeys(db)
    ensures OnePerShortIdentity(db)
  {
    forall j, k | j in db && k in db && db[j].topic == db[k].topic && Short(db[j].identity) == Short(db[k].identity)
      ensures j == k
    {
      assert KeyOf(db[j]) == KeyOf(db[k]);
    }
  }

  lemma KeyHasPrefix(e: Entry)
    ensures TopicPrefix(e.topic) <= KeyOf(e)
  {
  }

  /** Registering keeps one peer per domain, and the new identity is then the domain's only holder. */
  lemma RegisterKeepsTidy(db: Entries, e: Entry)
    requires Tidy(db)
    ensures Tidy(Registered(db, e))
    ensures forall k ::
      k in Registered(db, e) && Registered(db, e)[k].topic == e.topic && Registered(db, e)[k].domain == e.domain
      <==> k == KeyOf(e)
  {
    hide TopicPrefix, ShipKey;
    var after := Registered(db, e);
    forall k | k in after && after[k].topic == e.topic && after[k].domain == e.domain
      ensures k == KeyOf(e)
    {
      if k != KeyOf(e) {
        assert k == KeyOf(db[k]);
        KeyHasPrefix(db[k]);
      }
    }
  }

  /** Deleting entries keeps what holds of each pair of them. */
  lemma FewerKeepsTidy(db: Entries, after: Entries)
    requires Tidy(db) && after.Keys <= db.Keys && forall k :: k in after ==> after[k] == db[k]
    ensures Tidy(after)
  {
  }

  /** Removing a peer removes exactly the entry of its topic and short identity. */
  lemma RemovePeerExactly(db: Entries, topic: string, identity: string, k: string)
    requires OwnKeys(db) && k in db && ':' !in identity && ':' !in db[k].identity
    ensures k !in db - {ShipKey(topic, identity)} <==>
            db[k].topic == topic && Short(db[k].identity) == Short(identity)
  {
    var e := db[k];
    if k == ShipKey(topic, identity) {
      assert "ship:" + e.topic + ":" + Short(e.identity) == "ship:" + topic + ":" + Short(identity);
      LastColon("ship:" + e.topic, Short(e.identity), "ship:" + topic, Short(identity));
      assert ("ship:" + e.topic)[5..] == e.topic && ("ship:" + topic)[5..] == topic;
    }
  }

  /** A topic's own entries hold nothing of a peer removed from it. */
  lemma RemovedPeerIsGone(db: Entries, topic: string, identity: string)
    requires OwnKeys(db)
    ensures var after := db - {ShipKey(topic, identity)};
      && OwnKeys(after)
      && forall k :: k in after && after[k].topic == topic ==> Short(after[k].identity) != Short(identity)
  {
    var after := db - {ShipKey(topic, identity)};
    forall k | k in after && after[k].topic == topic
      ensures Short(after[k].identity) != Short(identity)
    {
      assert k == KeyOf(after[k]);
    }
  }

  datatype Event =
    | Register(entry: Entry)
    | Sweep(cutoff: Time)
    | Cleanup(cutoff: Time, localDomains: map<string, string>)
    | RemoveIdentity(identity: string)
    | RemovePeer(topic: string, identity: string)

  function Step(db: Entries, ev: Event): Entries {
    match ev
    case Register(e) => Registered(db, e)
    case Sweep(cutoff) => Swept(db, cutoff)
    case Cleanup(cutoff, localDomains) => CleanedUp(db, cutoff, localDomains)
    case RemoveIdentity(identity) => WithoutIdentity(db, identity)
    case RemovePeer(topic, identity) => db - {ShipKey(topic, identity)}
  }

  function Run(events: seq<Event>): Entries {
    if events == [] then map[] else Step(Run(events[..|events| - 1]), events[|events| - 1])
  }

  /** In every reachable directory each topic has at most one entry per domain and one per short identity. */
  lemma {:induction false} RunIsTidy(events: seq<Event>)
    ensures OwnKeys(Run(events)) && OnePerDomain(Run(events)) && OnePerShortIdentity(Run(events))
  {
    if events != [] {
      var before, last := Run(events[..|events| - 1]), events[|events| - 1];
      RunIsTidy(events[..|events| - 1]);
      if last.Register? {
        RegisterKeepsTidy(before, last.entry);
      } else {
        FewerKeepsTidy(before, Run(events));
      }
    }
    KeysSeparateIdentities(Run(events));
  }

  /** Just after a registration its identity is the domain's only holder for the topic. */
  lemma RegisteredHoldsDomain(events: seq<Event>, e: Entry, k: string)
    ensures var db := Run(events + [Register(e)]);
      k in db && db[k].topic == e.topic && db[k].domain == e.domain <==> k == KeyOf(e)
  {
    assert (events + [Register(e)])[..|events|] == events;
    RunIsTidy(events);
    RegisterKeepsTidy(Run(events), e);
  }

  // ---------------------------------------------------- what else is lost

  /** The scan for one topic reaches an entry of another exactly when the other's name continues the first after a
      colon. */
  lemma ScanReaches(topic: string, e: Entry)
    requires ':' !in e.identity
    ensures TopicPrefix(topic) <= KeyOf(e) <==> topic == e.topic || topic + ":" <= e.topic
  {
    var k, short, n := KeyOf(e), Short(e.identity), |topic|;
    assert ':' !in short;
    var named := e.topic + ":" + short;
    assert k == "ship:" + named && TopicPrefix(topic) == "ship:" + (topic + ":");
    assert TopicPrefix(topic) <= k <==> topic + ":" <= named by { SamePrefix("ship:", topic + ":", named); }
    if topic + ":" <= named {
      assert named[n] == ':';
      if n > |e.topic| {
        NoColonAfter(e.topic, short, n);
      }
      assert topic == named[..n];
    }
  }

  /** Registering costs an entry of another topic exactly when the name continues the registered one, for the same
      domain and another identity. */
  lemma RegisterFrame(db: Entries, e: Entry, k: string)
    requires OwnKeys(db) && k in db && k != KeyOf(e) && ':' !in db[k].identity
    ensures k !in Registered(db, e) <==>
            (db[k].topic == e.topic || e.topic + ":" <= db[k].topic)
            && db[k].domain == e.domain && db[k].identity != e.identity
    ensures k in Registered(db, e) ==> Registered(db, e)[k] == db[k]
  {
    hide TopicPrefix, ShipKey;
    ScanReaches(e.topic, db[k]);
  }

  lemma NestedKeysDiffer(mainnet: Entry, anvil: Entry)
    requires mainnet.topic == "anvil:mainnet" && anvil.topic == "anvil" && ':' !in anvil.identity
    ensures KeyOf(mainnet) != KeyOf(anvil)
  {
    assert KeyOf(mainnet)[18] == ':' && ':' !in Short(anvil.identity);
    assert KeyOf(anvil) == "ship:anvil:" + Short(anvil.identity);
  }

  /** A peer of anvil:mainnet is lost when another node registers its domain under anvil. */
  lemma NestedTopicIsLost(domain: string, a: string, b: string, at: Time)
    requires ':' !in a && ':' !in b && a != b
    ensures var mainnet, anvil := Entry(a, domain, "", "", "anvil:mainnet", "gossip", 0, at, at),
                                  Entry(b, domain, "", "", "anvil", "gossip", 0, at, at);
      KeyOf(mainnet) in Run([Register(mainnet)]) && KeyOf(mainnet) !in Run([Register(mainnet), Register(anvil)])
  {
    var mainnet, anvil := Entry(a, domain, "", "", "anvil:mainnet", "gossip", 0, at, at),
                          Entry(b, domain, "", "", "anvil", "gossip", 0, at, at);
    assert [Register(mainnet), Register(anvil)][..1] == [Register(mainnet)] && [Register(mainnet)][..0] == [];
    RunIsTidy([Register(mainnet)]);
    assert KeyOf(mainnet) in Run([Register(mainnet)]);
    NestedKeysDiffer(mainnet, anvil);
    hide Run, TopicPrefix, ShipKey;
    RegisterFrame(Run([Register(mainnet)]), anvil, KeyOf(mainnet));
  }
}
