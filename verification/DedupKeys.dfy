/** When two envelopes share a deduplication key (internal/envelope/envelope.go). */
module DedupKeys {
  import opened Gossip
  import opened Hex
  import opened Texts

  /** b's topic runs on over a's pubkey, and into a's payload. */
  ghost predicate RunsOn(a: Fields, b: Fields) {
    (b.topic == a.topic + ":" + a.pubkey && a.payload == b.pubkey + ":" + b.payload) ||
    (exists x :: OverlapBy(a, b, x))
  }

  predicate OverlapBy(a: Fields, b: Fields, x: string) {
    b.topic == a.topic + ":" + a.pubkey + ":" + x && a.payload == x + ":" + b.pubkey + ":" + b.payload
  }

  function Joined(k: Fields): string {
    k.topic + ":" + k.pubkey + ":" + k.payload
  }

  lemma TextOfParts(a: Fields, b: Fields)
    ensures Text(a) == Text(b) <==> Joined(a) == Joined(b) && a.timestamp == b.timestamp
  {
    if Text(a) == Text(b) {
      LastColon(Joined(a), SignedDecimal(a.timestamp), Joined(b), SignedDecimal(b.timestamp));
      SignedDecimalInjective(a.timestamp, b.timestamp);
    }
  }

  lemma PubkeyHasNoColon(a: Fields, k: int)
    requires ':' !in a.pubkey && |a.topic| < k < |a.topic| + 1 + |a.pubkey|
    ensures Joined(a)[k] != ':'
  {
    assert Joined(a)[k] == a.pubkey[k - |a.topic| - 1];
  }

  lemma LongerTopicCoversPubkey(a: Fields, b: Fields)
    requires ':' !in a.pubkey && Joined(a) == Joined(b) && |a.topic| < |b.topic|
    ensures |b.topic| >= |a.topic| + 1 + |a.pubkey|
  {
    assert Joined(b)[|b.topic|] == ':';
    if |b.topic| < |a.topic| + 1 + |a.pubkey| {
      PubkeyHasNoColon(a, |b.topic|);
    }
  }

  lemma Halves(s: string, t: string, u: string)
    requires s == t + ":" + u
    ensures s[..|t|] == t && s[|t|] == ':' && s[|t| + 1..] == u
  {
  }

  lemma Regrouped(t: string, p: string, l: string)
    ensures t + ":" + p + ":" + l == t + ":" + (p + ":" + l)
  {
  }

  lemma LongerTopicRunsOn(a: Fields, b: Fields)
    requires ':' !in a.pubkey && Joined(a) == Joined(b) && |a.topic| < |b.topic|
    ensures RunsOn(a, b)
  {
    var s, head := Joined(a), a.topic + ":" + a.pubkey;
    LongerTopicCoversPubkey(a, b);
    Halves(s, head, a.payload);
    Regrouped(b.topic, b.pubkey, b.payload);
    Halves(s, b.topic, b.pubkey + ":" + b.payload);
    hide Joined;
    var k, m := |b.topic|, |head|;
    if k > m {
      var x := s[m + 1..k];
      assert s[..k] == s[..m] + [s[m]] + x;
      assert s[m + 1..] == x + [s[k]] + s[k + 1..];
      Regrouped(x, b.pubkey, b.payload);
      assert OverlapBy(a, b, x);
    }
  }

  lemma EqualTopicsSeparate(a: Fields, b: Fields)
    requires ':' !in a.pubkey && ':' !in b.pubkey && Joined(a) == Joined(b) && |a.topic| == |b.topic|
    ensures a.topic == b.topic && a.pubkey == b.pubkey && a.payload == b.payload
  {
    var s, n := Joined(a), |a.topic|;
    assert s[..n] == a.topic && s[..n] == b.topic;
    var p, q := |a.pubkey|, |b.pubkey|;
    assert s[n + 1 + p] == ':' && s[n + 1 + q] == ':';
    if p < q {
      PubkeyHasNoColon(b, n + 1 + p);
    } else if q < p {
      PubkeyHasNoColon(a, n + 1 + q);
    }
    assert s[n + 1..n + 1 + p] == a.pubkey && s[n + 1..n + 1 + q] == b.pubkey;
    assert s[n + 2 + p..] == a.payload && s[n + 2 + q..] == b.payload;
  }

  lemma RunningOnJoins(a: Fields, b: Fields)
    requires RunsOn(a, b)
    ensures Joined(a) == Joined(b)
  {
    if x :| OverlapBy(a, b, x) {
      assert Joined(a) == a.topic + ":" + a.pubkey + ":" + x + ":" + b.pubkey + ":" + b.payload;
    } else {
      assert Joined(a) == a.topic + ":" + a.pubkey + ":" + b.pubkey + ":" + b.payload;
    }
  }

  /** With pubkeys free of colons two envelopes share a key exactly when their fields agree, or their timestamps do
      and the topic of one runs on over the pubkey of the other into its payload. */
  lemma SharedKeyExactly(a: Fields, b: Fields)
    requires ':' !in a.pubkey && ':' !in b.pubkey
    ensures Text(a) == Text(b) <==> a == b || (a.timestamp == b.timestamp && (RunsOn(a, b) || RunsOn(b, a)))
  {
    TextOfParts(a, b);
    if Joined(a) == Joined(b) {
      if |a.topic| < |b.topic| {
        LongerTopicRunsOn(a, b);
      } else if |b.topic| < |a.topic| {
        LongerTopicRunsOn(b, a);
      } else {
        EqualTopicsSeparate(a, b);
      }
    }
    if RunsOn(a, b) {
      RunningOnJoins(a, b);
    }
    if RunsOn(b, a) {
      RunningOnJoins(b, a);
    }
  }

  function Colons(s: string): nat {
    if s == [] then 0 else Colons(s[..|s| - 1]) + if s[|s| - 1] == ':' then 1 else 0
  }

  lemma {:induction false} ColonsAdd(s: string, t: string)
    ensures Colons(s + t) == Colons(s) + Colons(t)
  {
    if t == [] {
      assert s + t == s;
    } else {
      assert (s + t)[..|s + t| - 1] == s + t[..|t| - 1];
      ColonsAdd(s, t[..|t| - 1]);
    }
  }

  lemma RunningOnAddsColons(a: Fields, b: Fields)
    requires RunsOn(a, b)
    ensures Colons(b.topic) > Colons(a.topic)
  {
    assert Colons(":") == 1;
    if x :| OverlapBy(a, b, x) {
      assert b.topic == a.topic + (":" + (a.pubkey + ":" + x));
      ColonsAdd(a.topic, ":" + (a.pubkey + ":" + x));
      ColonsAdd(":", a.pubkey + ":" + x);
    } else {
      assert b.topic == a.topic + (":" + a.pubkey);
      ColonsAdd(a.topic, ":" + a.pubkey);
      ColonsAdd(":", a.pubkey);
    }
  }

  /** Topics with equally many colons never make different envelopes share a key. */
  lemma EqualColonsSeparate(a: Fields, b: Fields)
    requires ':' !in a.pubkey && ':' !in b.pubkey && Colons(a.topic) == Colons(b.topic)
    ensures Text(a) == Text(b) <==> a == b
  {
    SharedKeyExactly(a, b);
    if RunsOn(a, b) {
      RunningOnAddsColons(a, b);
    }
    if RunsOn(b, a) {
      RunningOnAddsColons(b, a);
    }
  }

  /** So among such topics two envelopes are one to a node exactly when they agree in topic, payload, timestamp and, up
      to case, pubkey; and they compete exactly when they agree in these but for the payload. */
  lemma SameToANode(e: Envelope, f: Envelope)
    requires ':' !in e.pubkey && ':' !in f.pubkey && Colons(e.topic) == Colons(f.topic)
    ensures IdentityKey(e) == IdentityKey(f) <==>
            e.topic == f.topic && ToLower(e.pubkey) == ToLower(f.pubkey) && e.timestamp == f.timestamp
    ensures DataKey(e) == DataKey(f) <==> IdentityKey(e) == IdentityKey(f) && e.payload == f.payload
  {
    LowerKeepsColons(e.pubkey);
    LowerKeepsColons(f.pubkey);
    hide Text, Colons, ToLower;
    EqualColonsSeparate(IdentityFields(e), IdentityFields(f));
    EqualColonsSeparate(DataFields(e), DataFields(f));
  }

  lemma LowerKeepsColons(s: string)
    ensures ':' in s <==> ':' in ToLower(s)
  {
    forall i | 0 <= i < |s|
      ensures s[i] == ':' <==> ToLower(s)[i] == ':'
    {
    }
  }

  /** After one envelope is handled, another that shares its key is a duplicate, whatever its topic. */
  lemma SharedKeySuppresses(rules: Rules, n: Node, e: Envelope, f: Envelope)
    requires DataKey(e) == DataKey(f)
    ensures var (n', verdict) := Handle(rules, n, e, {});
      verdict != Slashed ==> Handle(rules, n', f, {}).1 == Duplicate
  {
  }

  /** Two topics, two pubkeys and two payloads with one key. */
  lemma TopicsThatShareAKey()
    ensures Text(Fields("t", "a", "b:c", 0)) == Text(Fields("t:a", "b", "c", 0))
  {
    assert RunsOn(Fields("t", "a", "b:c", 0), Fields("t:a", "b", "c", 0));
    SharedKeyExactly(Fields("t", "a", "b:c", 0), Fields("t:a", "b", "c", 0));
  }
}
