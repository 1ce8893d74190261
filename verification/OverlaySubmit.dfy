/** What a submission does to the index, topic by topic. */
module OverlaySubmit {
  import opened Wrappers
  import opened OverlayKeys
  import opened OverlayEngine

  /** The output is admitted to the topic and not removed since. */
  predicate Live<M>(db: Index<M>, topic: string, o: Outpoint) {
    KeyOf(topic, o) in db
  }

  /** Two indexes hold the same outputs of a topic. */
  ghost predicate SameOutput<M>(a: Index<M>, b: Index<M>, topic: string, o: Outpoint) {
    && (Live(a, topic, o) <==> Live(b, topic, o))
    && (Live(a, topic, o) ==> a[KeyOf(topic, o)] == b[KeyOf(topic, o)])
  }

  ghost predicate SameTopic<M>(a: Index<M>, b: Index<M>, topic: string) {
    forall o: Outpoint :: SameOutput(a, b, topic, o)
  }

  lemma KeysDiffer(t: string, o: Outpoint, t': string, o': Outpoint)
    ensures KeyOf(t, o) == KeyOf(t', o') <==> t == t' && o == o'
  {
    if KeyOf(t, o) == KeyOf(t', o') {
      OutputKeyInjective(t, o.txid, o.vout, t', o'.txid, o'.vout);
    }
  }

  // ----------------------------------------------- one output of one topic

  /** The coins the answer removes. */
  ghost predicate Removes<M>(previous: seq<Record<M>>, coins: seq<nat>, o: Outpoint) {
    exists k :: 0 <= k < |coins| && coins[k] < |previous| && previous[coins[k]].outpoint == o
  }

  predicate Admits(tx: Tx, outputs: seq<nat>, o: Outpoint) {
    o.txid == tx.txid && o.vout in outputs
  }

  lemma {:induction false} AdmitEffect<M>(
      db: Index<M>, tx: Tx, topic: string, outputs: seq<nat>, metadata: map<nat, M>, t: string, o: Outpoint)
    ensures var after := AdmitAll(db, tx, topic, outputs, metadata);
      if t == topic && Admits(tx, outputs, o)
      then Live(after, t, o) && after[KeyOf(t, o)] == NewRecord(tx, topic, o.vout, metadata)
      else SameOutput(after, db, t, o)
  {
    hide KeyOf, NewRecord;
    if outputs != [] {
      var n := |outputs| - 1;
      AdmitEffect(db, tx, topic, outputs[..n], metadata, t, o);
      KeysDiffer(topic, Outpoint(tx.txid, outputs[n]), t, o);
      SameKey(topic, tx.txid, outputs[n]);
      assert outputs == outputs[..n] + [outputs[n]];
    }
  }

  lemma SameKey(topic: string, txid: Txid, vout: nat)
    ensures KeyOf(topic, Outpoint(txid, vout)) == OutputKey(topic, txid, vout)
  {
  }

  lemma {:induction false} RemoveEffect<M>(
      db: Index<M>, topic: string, previous: seq<Record<M>>, coins: seq<nat>, t: string, o: Outpoint)
    ensures var after := RemoveAll(db, topic, previous, coins);
      if t == topic && Removes(previous, coins, o) then !Live(after, t, o) else SameOutput(after, db, t, o)
  {
    hide KeyOf;
    if coins != [] {
      var n := |coins| - 1;
      RemoveEffect(db, topic, previous, coins[..n], t, o);
      RemovesLast(previous, coins, o);
      if coins[n] < |previous| {
        KeysDiffer(topic, previous[coins[n]].outpoint, t, o);
      }
    }
  }

  lemma RemovesLast<M>(previous: seq<Record<M>>, coins: seq<nat>, o: Outpoint)
    requires coins != []
    ensures var n := |coins| - 1;
      Removes(previous, coins, o)
      <==> Removes(previous, coins[..n], o) || (coins[n] < |previous| && previous[coins[n]].outpoint == o)
  {
    var n := |coins| - 1;
    if Removes(previous, coins[..n], o) {
      var k :| 0 <= k < n && coins[..n][k] < |previous| && previous[coins[..n][k]].outpoint == o;
      assert coins[k] < |previous| && previous[coins[k]].outpoint == o;
    }
    if Removes(previous, coins, o) {
      var k :| 0 <= k < |coins| && coins[k] < |previous| && previous[coins[k]].outpoint == o;
      if k < n {
        assert coins[..n][k] < |previous| && previous[coins[..n][k]].outpoint == o;
      }
    }
  }

  /** After an answered submission the topic holds what it held and what was admitted, less the coins removed. */
  lemma TopicEffect<M>(managers: Managers<M>, db: Index<M>, tx: Tx, topic: string, o: Outpoint)
    requires Answer(managers, db, tx, topic).Some?
    ensures var ins, after := Answer(managers, db, tx, topic).value, AfterTopic(managers, db, tx, topic);
      && (Live(after, topic, o) <==>
          ((Live(db, topic, o) || Admits(tx, ins.outputsToAdmit, o))
           && !Removes(PreviousOf(db, topic, tx.inputs), ins.coinsRemoved, o)))
      && (Live(after, topic, o) ==>
          after[KeyOf(topic, o)] ==
          if Admits(tx, ins.outputsToAdmit, o) then
            Record(
              o, topic,
              if o.vout < |tx.outputs| then tx.outputs[o.vout].script else None,
              if o.vout < |tx.outputs| then tx.outputs[o.vout].satoshis else 0,
              if o.vout in ins.outputMetadata then Some(ins.outputMetadata[o.vout]) else None, false)
          else db[KeyOf(topic, o)])
  {
    hide KeyOf, Answer, PreviousOf;
    var ins := Answer(managers, db, tx, topic).value;
    var admitted := AdmitAll(db, tx, topic, ins.outputsToAdmit, ins.outputMetadata);
    AdmitEffect(db, tx, topic, ins.outputsToAdmit, ins.outputMetadata, topic, o);
    RemoveEffect(admitted, topic, PreviousOf(db, topic, tx.inputs), ins.coinsRemoved, topic, o);
  }

  /** A coin the answer only retains stays in the index. */
  lemma RetainedCoinStays<M>(managers: Managers<M>, db: Index<M>, tx: Tx, topic: string, k: nat)
    requires OwnKeys(db) && DistinctOutpoints(tx.inputs)
    requires Answer(managers, db, tx, topic).Some? && k < |PreviousOf(db, topic, tx.inputs)|
    requires k !in Answer(managers, db, tx, topic).value.coinsRemoved
    ensures Live(AfterTopic(managers, db, tx, topic), topic, PreviousOf(db, topic, tx.inputs)[k].outpoint)
  {
    hide Answer, AfterTopic, KeyOf, OwnKeys;
    var previous := PreviousOf(db, topic, tx.inputs);
    var o := previous[k].outpoint;
    PreviousAreInputs(db, topic, tx.inputs);
    TopicEffect(managers, db, tx, topic, o);
    OnlyCoin(db, topic, tx.inputs, Answer(managers, db, tx, topic).value.coinsRemoved, k);
  }

  // A coin not removed by its number is not removed by its outpoint either.
  lemma OnlyCoin<M>(db: Index<M>, topic: string, inputs: seq<Option<Outpoint>>, coins: seq<nat>, k: nat)
    requires OwnKeys(db) && DistinctOutpoints(inputs)
    requires k < |PreviousOf(db, topic, inputs)| && k !in coins
    ensures !Removes(PreviousOf(db, topic, inputs), coins, PreviousOf(db, topic, inputs)[k].outpoint)
  {
    hide KeyOf, OwnKeys;
    PreviousAreInputs(db, topic, inputs);
    hide PreviousOf;
    var spending, previous := SpendingInputs(db, topic, inputs), PreviousOf(db, topic, inputs);
    forall j | 0 <= j < |coins| && coins[j] < |previous|
      ensures previous[coins[j]].outpoint != previous[k].outpoint
    {
      assert coins[j] in coins;
      assert inputs[spending[coins[j]]] != inputs[spending[k]];
    }
  }

  /** The k-th previous output is the one spent by the k-th spending input, in increasing order of inputs. */
  lemma PreviousAreInputs<M>(db: Index<M>, topic: string, inputs: seq<Option<Outpoint>>)
    requires OwnKeys(db)
    ensures var spending, previous := SpendingInputs(db, topic, inputs), PreviousOf(db, topic, inputs);
      && |previous| == |spending|
      && (forall k :: 0 <= k < |previous| ==>
            inputs[spending[k]] == Some(previous[k].outpoint) && previous[k].topic == topic
            && Live(db, topic, previous[k].outpoint))
  {
    var spending, previous := SpendingInputs(db, topic, inputs), PreviousOf(db, topic, inputs);
    forall k | 0 <= k < |previous|
      ensures inputs[spending[k]] == Some(previous[k].outpoint) && previous[k].topic == topic
    {
      KeysDiffer(topic, inputs[spending[k]].value, previous[k].topic, previous[k].outpoint);
    }
  }

  /** The STEAK names, for each coin the answer removes, the input that spends it. */
  lemma {:induction false} RemappedNamesInputs(spending: seq<nat>, coins: seq<nat>)
    ensures forall i :: i in Remapped(spending, coins) <==> exists k :: k in coins && k < |spending| && spending[k] == i
    ensures AllBelow(coins, |spending|) ==>
            |Remapped(spending, coins)| == |coins|
            && forall j :: 0 <= j < |coins| ==> Remapped(spending, coins)[j] == spending[coins[j]]
  {
    if coins != [] {
      var n := |coins| - 1;
      RemappedNamesInputs(spending, coins[..n]);
      assert coins == coins[..n] + [coins[n]];
    }
  }

  predicate AllBelow(coins: seq<nat>, n: nat) {
    forall j :: 0 <= j < |coins| ==> coins[j] < n
  }

  /** In the STEAK each coin, removed or retained, stands as the input that spends it. */
  lemma SteakNamesSpendingInputs<M>(managers: Managers<M>, db: Index<M>, tx: Tx, topic: string, j: nat)
    requires OwnKeys(db) && Reply(managers, db, tx, topic).Some?
    requires var ins := Answer(managers, db, tx, topic).value;
      var n := |PreviousOf(db, topic, tx.inputs)|;
      AllBelow(ins.coinsRemoved, n) && AllBelow(ins.coinsToRetain, n)
    ensures var ins, reply := Answer(managers, db, tx, topic).value, Reply(managers, db, tx, topic).value;
      var previous := PreviousOf(db, topic, tx.inputs);
      && reply.outputsToAdmit == ins.outputsToAdmit && reply.outputMetadata == ins.outputMetadata
      && |reply.coinsRemoved| == |ins.coinsRemoved| && |reply.coinsToRetain| == |ins.coinsToRetain|
      && (j < |ins.coinsRemoved| ==>
            reply.coinsRemoved[j] < |tx.inputs| &&
            tx.inputs[reply.coinsRemoved[j]] == Some(previous[ins.coinsRemoved[j]].outpoint))
      && (j < |ins.coinsToRetain| ==>
            reply.coinsToRetain[j] < |tx.inputs| &&
            tx.inputs[reply.coinsToRetain[j]] == Some(previous[ins.coinsToRetain[j]].outpoint))
  {
    var ins := Answer(managers, db, tx, topic).value;
    PreviousAreInputs(db, topic, tx.inputs);
    RemappedNamesInputs(SpendingInputs(db, topic, tx.inputs), ins.coinsRemoved);
    RemappedNamesInputs(SpendingInputs(db, topic, tx.inputs), ins.coinsToRetain);
  }

  // ------------------------------------------------ topics do not interfere

  /** A submission to one topic leaves the other topics alone. */
  lemma OtherTopicsUntouched<M>(managers: Managers<M>, db: Index<M>, tx: Tx, topic: string, t: string)
    requires t != topic
    ensures SameTopic(AfterTopic(managers, db, tx, topic), db, t)
  {
    var reply := Answer(managers, db, tx, topic);
    if reply.Some? {
      hide Answer, PreviousOf, SameOutput;
      var ins := reply.value;
      var admitted := AdmitAll(db, tx, topic, ins.outputsToAdmit, ins.outputMetadata);
      var after := RemoveAll(admitted, topic, PreviousOf(db, topic, tx.inputs), ins.coinsRemoved);
      forall o: Outpoint
        ensures SameOutput(after, db, t, o)
      {
        AdmitEffect(db, tx, topic, ins.outputsToAdmit, ins.outputMetadata, t, o);
        RemoveEffect(admitted, topic, PreviousOf(db, topic, tx.inputs), ins.coinsRemoved, t, o);
        SameTrans(after, admitted, db, t, o);
      }
    }
  }

  lemma SameTrans<M>(a: Index<M>, b: Index<M>, c: Index<M>, t: string, o: Outpoint)
    requires SameOutput(a, b, t, o) && SameOutput(b, c, t, o)
    ensures SameOutput(a, c, t, o)
  {
  }

  /** What a topic is shown depends on its own outputs only. */
  lemma {:induction false} SameSpending<M>(a: Index<M>, b: Index<M>, topic: string, inputs: seq<Option<Outpoint>>)
    requires SameTopic(a, b, topic)
    ensures SpendingInputs(a, topic, inputs) == SpendingInputs(b, topic, inputs)
    ensures PreviousOf(a, topic, inputs) == PreviousOf(b, topic, inputs)
  {
    if inputs != [] {
      var n := |inputs| - 1;
      SameSpending(a, b, topic, inputs[..n]);
      if inputs[n].Some? {
        assert SameOutput(a, b, topic, inputs[n].value);
      }
      var spending := SpendingInputs(a, topic, inputs);
      forall k | 0 <= k < |spending|
        ensures a[KeyOf(topic, inputs[spending[k]].value)] == b[KeyOf(topic, inputs[spending[k]].value)]
      {
        assert SameOutput(a, b, topic, inputs[spending[k]].value);
      }
    }
  }

  lemma TopicSeesItself<M>(managers: Managers<M>, a: Index<M>, b: Index<M>, tx: Tx, topic: string)
    requires SameTopic(a, b, topic)
    ensures Reply(managers, a, tx, topic) == Reply(managers, b, tx, topic)
    ensures SameTopic(AfterTopic(managers, a, tx, topic), AfterTopic(managers, b, tx, topic), topic)
  {
    SameSpending(a, b, topic, tx.inputs);
    hide SameOutput, SpendingInputs, PreviousOf;
    if Answer(managers, a, tx, topic).Some? {
      forall o: Outpoint
        ensures SameOutput(AfterTopic(managers, a, tx, topic), AfterTopic(managers, b, tx, topic), topic, o)
      {
        assert SameOutput(a, b, topic, o);
        TopicEffect(managers, a, tx, topic, o);
        TopicEffect(managers, b, tx, topic, o);
        SameEffect(managers, a, b, tx, topic, o);
      }
    }
  }

  lemma SameEffect<M>(managers: Managers<M>, a: Index<M>, b: Index<M>, tx: Tx, topic: string, o: Outpoint)
    requires SameOutput(a, b, topic, o) && Answer(managers, a, tx, topic).Some?
    requires PreviousOf(a, topic, tx.inputs) == PreviousOf(b, topic, tx.inputs)
    ensures SameOutput(AfterTopic(managers, a, tx, topic), AfterTopic(managers, b, tx, topic), topic, o)
  {
    hide PreviousOf, AfterTopic, KeyOf, NewRecord;
    TopicEffect(managers, a, tx, topic, o);
    TopicEffect(managers, b, tx, topic, o);
  }

  lemma {:induction false} TopicsNotListed<M>(
      managers: Managers<M>, db: Index<M>, tx: Tx, topics: seq<string>, t: string)
    requires t !in topics
    ensures SameTopic(Submitted(managers, db, tx, topics), db, t)
    ensures t !in Steak(managers, db, tx, topics)
  {
    hide AfterTopic, SameOutput, Reply;
    if topics == [] {
      SameRefl(db, t);
    } else {
      var n := |topics| - 1;
      var before := Submitted(managers, db, tx, topics[..n]);
      TopicsNotListed(managers, db, tx, topics[..n], t);
      OtherTopicsUntouched(managers, before, tx, topics[n], t);
      SameTopicTrans(AfterTopic(managers, before, tx, topics[n]), before, db, t);
    }
  }

  lemma SameRefl<M>(a: Index<M>, t: string)
    ensures SameTopic(a, a, t)
  {
  }

  lemma SameTopicTrans<M>(a: Index<M>, b: Index<M>, c: Index<M>, t: string)
    requires SameTopic(a, b, t) && SameTopic(b, c, t)
    ensures SameTopic(a, c, t)
  {
    forall o: Outpoint
      ensures SameOutput(a, c, t, o)
    {
      assert SameOutput(a, b, t, o) && SameOutput(b, c, t, o);
    }
  }

  ghost predicate NoRepeats(topics: seq<string>) {
    forall i, j :: 0 <= i < j < |topics| ==> topics[i] != topics[j]
  }

  /** With no topic listed twice, each is treated as if it were submitted alone, in whatever order they are listed. */
  lemma {:induction false} SubmitIsPerTopic<M>(
      managers: Managers<M>, db: Index<M>, tx: Tx, topics: seq<string>, t: string)
    requires NoRepeats(topics) && t in topics
    ensures SameTopic(Submitted(managers, db, tx, topics), AfterTopic(managers, db, tx, t), t)
    ensures t in Steak(managers, db, tx, topics) <==> Reply(managers, db, tx, t).Some?
    ensures t in Steak(managers, db, tx, topics) ==>
            Steak(managers, db, tx, topics)[t] == Reply(managers, db, tx, t).value
  {
    hide AfterTopic, SameOutput, Reply;
    var n := |topics| - 1;
    var before := Submitted(managers, db, tx, topics[..n]);
    assert topics == topics[..n] + [topics[n]];
    if topics[n] == t {
      TopicsNotListed(managers, db, tx, topics[..n], t);
      TopicSeesItself(managers, before, db, tx, t);
    } else {
      SubmitIsPerTopic(managers, db, tx, topics[..n], t);
      OtherTopicsUntouched(managers, before, tx, topics[n], t);
      SameTopicTrans(AfterTopic(managers, before, tx, topics[n]), before, AfterTopic(managers, db, tx, t), t);
    }
  }
}
