/** The LevelDB keys of the overlay index (internal/overlay/engine.go). */
module OverlayKeys {
  import opened Texts

  /** A transaction id as hex, in which there is no colon. */
  type Txid = s: string | ':' !in s

  /** outputKey */
  function OutputKey(topic: string, txid: Txid, vout: nat): string {
    "ovl:" + topic + ":" + txid + ":" + Decimal(vout)
  }

  /** Different outputs, and the same output of different topics, have different keys, whatever the topics' names. */
  lemma OutputKeyInjective(t: string, x: Txid, v: nat, t': string, x': Txid, v': nat)
    requires OutputKey(t, x, v) == OutputKey(t', x', v')
    ensures t == t' && x == x' && v == v'
  {
    LastColon("ovl:" + t + ":" + x, Decimal(v), "ovl:" + t' + ":" + x', Decimal(v'));
    DecimalInjective(v, v');
    LastColon("ovl:" + t, x, "ovl:" + t', x');
    assert ("ovl:" + t)[4..] == t && ("ovl:" + t')[4..] == t';
  }

  /** The prefix GetOutputsByTopic scans. */
  function TopicPrefix(topic: string): string {
    "ovl:" + topic + ":"
  }

  /** The prefix of one topic matches a key exactly when the key is its own, when its topic's name continues the scanned
      one after a colon, or when the scanned name is the key's topic and txid. */
  lemma ScanMatchesExactly(topic: string, t: string, x: Txid, v: nat)
    ensures TopicPrefix(topic) <= OutputKey(t, x, v) <==>
            topic == t || topic + ":" <= t || topic == t + ":" + x
  {
    var y := Decimal(v);
    var named, n := t + ":" + x + ":" + y, |topic|;
    assert OutputKey(t, x, v) == "ovl:" + named && TopicPrefix(topic) == "ovl:" + (topic + ":");
    SamePrefix("ovl:", topic + ":", named);
    if topic + ":" <= named {
      assert named[n] == ':';
      if n > |t| && n != |t| + 1 + |x| {
        NoOtherColon(t, x, y, n);
      }
      assert topic == named[..n] && named[..|t|] == t && named[..|t| + 1 + |x|] == t + ":" + x;
    }
  }
}
