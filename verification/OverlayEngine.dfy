/** Transaction submission to the overlay, BRC-22 (internal/overlay/engine.go). */
module OverlayEngine {
  import opened Numbers
  import opened Wrappers
  import opened OverlayKeys

  datatype Outpoint = Outpoint(txid: Txid, vout: nat)

  datatype TxOutput = TxOutput(script: Option<seq<byte>>, satoshis: nat)

  /** A parsed transaction. An input with no source txid is None. */
  datatype Tx = Tx(txid: Txid, inputs: seq<Option<Outpoint>>, outputs: seq<TxOutput>)

  /** AdmittedOutput */
  datatype Record<M> = Record(
    outpoint: Outpoint, topic: string, script: Option<seq<byte>>, satoshis: nat, metadata: Option<M>, spent: bool)

  /** AdmittanceInstructions; the manager's indices are not negative. */
  datatype Instructions<M> = Instructions(
    outputsToAdmit: seq<nat>, coinsToRetain: seq<nat>, coinsRemoved: seq<nat>, outputMetadata: map<nat, M>)

  /** A topic manager's Admit; an error and a nil answer are both None, and both are skipped. */
  type Manager<!M> = (Tx, seq<Record<M>>) -> Option<Instructions<M>>

  type Managers<!M> = map<string, Manager<M>>

  type Index<M> = map<string, Record<M>>

  function KeyOf(topic: string, o: Outpoint): string {
    OutputKey(topic, o.txid, o.vout)
  }

  // --------------------------------------------------- what Submit computes

  predicate Spends<M>(db: Index<M>, topic: string, input: Option<Outpoint>) {
    input.Some? && KeyOf(topic, input.value) in db
  }

  /** The inputs that spend outputs admitted to the topic, in increasing order. */
  function SpendingInputs<M>(db: Index<M>, topic: string, inputs: seq<Option<Outpoint>>): (r: seq<nat>)
    ensures forall k :: 0 <= k < |r| ==> r[k] < |inputs| && Spends(db, topic, inputs[r[k]])
    ensures forall j, k :: 0 <= j < k < |r| ==> r[j] < r[k]
    ensures forall i :: 0 <= i < |inputs| && Spends(db, topic, inputs[i]) ==> i in r
  {
    if inputs == [] then []
    else
      var n := |inputs| - 1;
      SpendingInputs(db, topic, inputs[..n]) + if Spends(db, topic, inputs[n]) then [n] else []
  }

  /** The outputs they spend: what the topic manager is shown. */
  function PreviousOf<M>(db: Index<M>, topic: string, inputs: seq<Option<Outpoint>>): seq<Record<M>> {
    var spending := SpendingInputs(db, topic, inputs);
    seq(|spending|, k requires 0 <= k < |spending| => db[KeyOf(topic, inputs[spending[k]].value)])
  }

  /** The record stored for an admitted output, whether or not the transaction has it. */
  function NewRecord<M>(tx: Tx, topic: string, vout: nat, metadata: map<nat, M>): Record<M> {
    Record(
      Outpoint(tx.txid, vout), topic,
      if vout < |tx.outputs| then tx.outputs[vout].script else None,
      if vout < |tx.outputs| then tx.outputs[vout].satoshis else 0,
      if vout in metadata then Some(metadata[vout]) else None, false)
  }

  function AdmitAll<M>(db: Index<M>, tx: Tx, topic: string, outputs: seq<nat>, metadata: map<nat, M>): Index<M> {
    if outputs == [] then db
    else
      var n := |outputs| - 1;
      AdmitAll(db, tx, topic, outputs[..n], metadata)
        [OutputKey(topic, tx.txid, outputs[n]) := NewRecord(tx, topic, outputs[n], metadata)]
  }

  function RemoveAll<M>(db: Index<M>, topic: string, previous: seq<Record<M>>, coins: seq<nat>): Index<M> {
    if coins == [] then db
    else
      var n := |coins| - 1;
      var rest := RemoveAll(db, topic, previous, coins[..n]);
      if coins[n] < |previous| then rest - {KeyOf(topic, previous[coins[n]].outpoint)} else rest
  }

  function Answer<M>(managers: Managers<M>, db: Index<M>, tx: Tx, topic: string): Option<Instructions<M>> {
    if topic in managers then managers[topic](tx, PreviousOf(db, topic, tx.inputs)) else None
  }

  function AfterTopic<M>(managers: Managers<M>, db: Index<M>, tx: Tx, topic: string): Index<M> {
    match Answer(managers, db, tx, topic)
    case None => db
    case Some(ins) =>
      RemoveAll(AdmitAll(db, tx, topic, ins.outputsToAdmit, ins.outputMetadata),
                topic, PreviousOf(db, topic, tx.inputs), ins.coinsRemoved)
  }

  /** Indices into the previous outputs become input indices; those out of range are left out. */
  function Remapped(spending: seq<nat>, coins: seq<nat>): seq<nat> {
    if coins == [] then []
    else
      var n := |coins| - 1;
      Remapped(spending, coins[..n]) + if coins[n] < |spending| then [spending[coins[n]]] else []
  }

  /** The entry of the STEAK for one topic. */
  function Reply<M>(managers: Managers<M>, db: Index<M>, tx: Tx, topic: string): Option<Instructions<M>> {
    match Answer(managers, db, tx, topic)
    case None => None
    case Some(ins) =>
      var spending := SpendingInputs(db, topic, tx.inputs);
      Some(ins.(coinsRemoved := Remapped(spending, ins.coinsRemoved),
                coinsToRetain := Remapped(spending, ins.coinsToRetain)))
  }

  function Submitted<M>(managers: Managers<M>, db: Index<M>, tx: Tx, topics: seq<string>): Index<M> {
    if topics == [] then db
    else AfterTopic(managers, Submitted(managers, db, tx, topics[..|topics| - 1]), tx, topics[|topics| - 1])
  }

  function Steak<M>(managers: Managers<M>, db: Index<M>, tx: Tx, topics: seq<string>): map<string, Instructions<M>> {
    if topics == [] then map[]
    else
      var n := |topics| - 1;
      var steak := Steak(managers, db, tx, topics[..n]);
      match Reply(managers, Submitted(managers, db, tx, topics[..n]), tx, topics[n])
      case None => steak
      case Some(ins) => steak[topics[n] := ins]
  }

  // ------------------------------------------------------------ the engine

  /** Every record is stored under the key of its own topic and outpoint. */
  ghost predicate OwnKeys<M>(db: Index<M>) {
    forall k :: k in db ==> k == KeyOf(db[k].topic, db[k].outpoint)
  }

  /** No two inputs spend the same output. */
  ghost predicate DistinctOutpoints(inputs: seq<Option<Outpoint>>) {
    forall i, j :: 0 <= i < j < |inputs| && inputs[i].Some? ==> inputs[i] != inputs[j]
  }

  // What findSpentUTXOs returns: the matched records by input index.
  ghost predicate SpentBy<M>(db: Index<M>, topic: string, inputs: seq<Option<Outpoint>>, spent: map<nat, Record<M>>) {
    && (forall i: nat :: i in spent <==> i < |inputs| && Spends(db, topic, inputs[i]))
    && (forall i :: i in spent ==> spent[i] == db[KeyOf(topic, inputs[i].value)])
  }

  // Two inputs of a transaction match records with different outpoints.
  ghost predicate MatchedOnce<M>(spent: map<nat, Record<M>>) {
    forall i, j :: i in spent && j in spent && spent[i].outpoint == spent[j].outpoint ==> i == j
  }

  lemma DistinctlyMatched<M>(db: Index<M>, topic: string, inputs: seq<Option<Outpoint>>, spent: map<nat, Record<M>>)
    requires OwnKeys(db) && DistinctOutpoints(inputs) && SpentBy(db, topic, inputs, spent)
    ensures MatchedOnce(spent)
  {
    forall i, j | i in spent && j in spent && spent[i].outpoint == spent[j].outpoint
      ensures i == j
    {
      var o, p := inputs[i].value, inputs[j].value;
      OutputKeyInjective(topic, o.txid, o.vout, spent[i].topic, spent[i].outpoint.txid, spent[i].outpoint.vout);
      OutputKeyInjective(topic, p.txid, p.vout, spent[j].topic, spent[j].outpoint.txid, spent[j].outpoint.vout);
      assert inputs[i] == inputs[j];
    }
  }

  lemma NoInputs<M>(db: Index<M>, topic: string, inputs: seq<Option<Outpoint>>)
    ensures SpendingInputs(db, topic, inputs[..0]) == [] && PreviousOf(db, topic, inputs[..0]) == []
  {
  }

  lemma NextInput<M>(db: Index<M>, topic: string, inputs: seq<Option<Outpoint>>, i: nat)
    requires i < |inputs|
    ensures SpendingInputs(db, topic, inputs[..i + 1]) ==
            SpendingInputs(db, topic, inputs[..i]) + if Spends(db, topic, inputs[i]) then [i] else []
    ensures PreviousOf(db, topic, inputs[..i + 1]) ==
            PreviousOf(db, topic, inputs[..i]) +
            if Spends(db, topic, inputs[i]) then [db[KeyOf(topic, inputs[i].value)]] else []
  {
    assert inputs[..i + 1][..i] == inputs[..i];
  }

  class Engine<M> {
    var db: Index<M>
    const managers: Managers<M>

    constructor (managers: Managers<M>)
      ensures db == map[] && this.managers == managers
    {
      this.managers := managers;
      db := map[];
    }

    method FindSpentUTXOs(tx: Tx, topic: string) returns (spent: map<nat, Record<M>>)
      ensures SpentBy(db, topic, tx.inputs, spent)
    {
      spent := map[];
      for i := 0 to |tx.inputs|
        invariant SpentBy(db, topic, tx.inputs[..i], spent)
      {
        var input := tx.inputs[i];
        if input.Some? && KeyOf(topic, input.value) in db {
          spent := spent[i := db[KeyOf(topic, input.value)]];
        }
      }
      assert tx.inputs[..|tx.inputs|] == tx.inputs;
    }

    // The indices in increasing order, and the matched records in that order.
    method SortByInput(tx: Tx, topic: string, spent: map<nat, Record<M>>)
        returns (indices: seq<nat>, previous: seq<Record<M>>)
      requires SpentBy(db, topic, tx.inputs, spent)
      ensures indices == SpendingInputs(db, topic, tx.inputs)
      ensures previous == PreviousOf(db, topic, tx.inputs)
    {
      hide SpendingInputs, PreviousOf;
      indices, previous := [], [];
      NoInputs(db, topic, tx.inputs);
      for i := 0 to |tx.inputs|
        invariant indices == SpendingInputs(db, topic, tx.inputs[..i])
        invariant previous == PreviousOf(db, topic, tx.inputs[..i])
      {
        NextInput(db, topic, tx.inputs, i);
        if i in spent {
          indices, previous := indices + [i], previous + [spent[i]];
        }
      }
      assert tx.inputs[..|tx.inputs|] == tx.inputs;
    }

    /** remapToInputIdx: the map is searched in no fixed order. */
    method RemapToInputIdx(prevIdx: nat, previous: seq<Record<M>>, spent: map<nat, Record<M>>) returns (r: Option<nat>)
      ensures r.Some? ==>
        prevIdx < |previous| && r.value in spent && spent[r.value].outpoint == previous[prevIdx].outpoint
      ensures r.None? && prevIdx < |previous| ==> forall i :: i in spent ==>
        spent[i].outpoint != previous[prevIdx].outpoint
    {
      if prevIdx >= |previous| {
        return None;
      }
      var rest := spent.Keys;
      while rest != {}
        invariant rest <= spent.Keys
        invariant forall i :: i in spent.Keys - rest ==> spent[i].outpoint != previous[prevIdx].outpoint
        decreases rest
      {
        var i :| i in rest;
        if spent[i].outpoint == previous[prevIdx].outpoint {
          return Some(i);
        }
        rest := rest - {i};
      }
      return None;
    }

    method StoreAdmitted(tx: Tx, topic: string, ins: Instructions<M>)
      modifies this`db
      ensures db == AdmitAll(old(db), tx, topic, ins.outputsToAdmit, ins.outputMetadata)
    {
      for i := 0 to |ins.outputsToAdmit|
        invariant db == AdmitAll(old(db), tx, topic, ins.outputsToAdmit[..i], ins.outputMetadata)
      {
        var outIdx := ins.outputsToAdmit[i];
        var output := Record(Outpoint(tx.txid, outIdx), topic, None, 0, None, false);
        if outIdx < |tx.outputs| {
          output := output.(script := tx.outputs[outIdx].script, satoshis := tx.outputs[outIdx].satoshis);
        }
        if outIdx in ins.outputMetadata {
          output := output.(metadata := Some(ins.outputMetadata[outIdx]));
        }
        db := db[OutputKey(topic, tx.txid, outIdx) := output];
        assert ins.outputsToAdmit[..i + 1][..i] == ins.outputsToAdmit[..i];
      }
      assert ins.outputsToAdmit[..|ins.outputsToAdmit|] == ins.outputsToAdmit;
    }

    method RemoveCoins(topic: string, previous: seq<Record<M>>, coins: seq<nat>)
      modifies this`db
      ensures db == RemoveAll(old(db), topic, previous, coins)
    {
      for i := 0 to |coins|
        invariant db == RemoveAll(old(db), topic, previous, coins[..i])
      {
        if coins[i] < |previous| {
          db := db - {KeyOf(topic, previous[coins[i]].outpoint)};
        }
        assert coins[..i + 1][..i] == coins[..i];
      }
      assert coins[..|coins|] == coins;
    }

    method RemapAll(coins: seq<nat>, ghost indices: seq<nat>, previous: seq<Record<M>>, spent: map<nat, Record<M>>)
        returns (mapped: seq<nat>)
      requires |indices| == |previous|
      requires forall k :: 0 <= k < |indices| ==> indices[k] in spent && spent[indices[k]] == previous[k]
      ensures MatchedOnce(spent) ==> mapped == Remapped(indices, coins)
    {
      mapped := [];
      for i := 0 to |coins|
        invariant MatchedOnce(spent) ==> mapped == Remapped(indices, coins[..i])
      {
        var realIdx := RemapToInputIdx(coins[i], previous, spent);
        if realIdx.Some? {
          mapped := mapped + [realIdx.value];
        }
        assert coins[..i + 1][..i] == coins[..i];
      }
      assert coins[..|coins|] == coins;
    }

    method SubmitTopic(tx: Tx, topic: string) returns (reply: Option<Instructions<M>>)
      modifies this`db
      ensures db == AfterTopic(managers, old(db), tx, topic)
      ensures OwnKeys(old(db)) && DistinctOutpoints(tx.inputs) ==> reply == Reply(managers, old(db), tx, topic)
    {
      if topic !in managers {
        return None;
      }
      var spent := FindSpentUTXOs(tx, topic);
      var indices, previous := SortByInput(tx, topic, spent);
      reply := managers[topic](tx, previous);
      if reply.None? {
        return;
      }
      var ins := reply.value;
      if OwnKeys(old(db)) && DistinctOutpoints(tx.inputs) {
        DistinctlyMatched(old(db), topic, tx.inputs, spent);
      }
      StoreAdmitted(tx, topic, ins);
      RemoveCoins(topic, previous, ins.coinsRemoved);
      var removed := RemapAll(ins.coinsRemoved, indices, previous, spent);
      var retained := RemapAll(ins.coinsToRetain, indices, previous, spent);
      reply := Some(ins.(coinsRemoved := removed, coinsToRetain := retained));
    }

    method Submit(tx: Tx, topics: seq<string>) returns (steak: map<string, Instructions<M>>)
      modifies this`db
      ensures db == Submitted(managers, old(db), tx, topics)
      ensures OwnKeys(old(db)) ==> OwnKeys(db)
      ensures OwnKeys(old(db)) && DistinctOutpoints(tx.inputs) ==> steak == Steak(managers, old(db), tx, topics)
    {
      steak := map[];
      for i := 0 to |topics|
        invariant db == Submitted(managers, old(db), tx, topics[..i])
        invariant OwnKeys(old(db)) ==> OwnKeys(db)
        invariant OwnKeys(old(db)) && DistinctOutpoints(tx.inputs) ==>
          steak == Steak(managers, old(db), tx, topics[..i])
      {
        assert topics[..i + 1][..i] == topics[..i];
        if OwnKeys(db) {
          TopicKeepsKeys(managers, db, tx, topics[i]);
        }
        var reply := SubmitTopic(tx, topics[i]);
        if reply.Some? {
          steak := steak[topics[i] := reply.value];
        }
      }
      assert topics[..|topics|] == topics;
    }

    /** GetOutputsByTopic; the keys it visits are returned beside the outputs. */
    method GetOutputsByTopic(topic: string) returns (outputs: seq<Record<M>>, ghost keys: seq<string>)
      ensures |outputs| == |keys|
      ensures forall i :: 0 <= i < |keys| ==> keys[i] in db && outputs[i] == db[keys[i]]
      ensures forall i, j :: 0 <= i < j < |keys| ==> keys[i] != keys[j]
      ensures forall k :: k in keys <==> k in db && TopicPrefix(topic) <= k && !db[k].spent
      ensures |outputs| == |set k | k in db && TopicPrefix(topic) <= k && !db[k].spent|
      ensures forall r :: r in outputs <==> exists k :: k in db && TopicPrefix(topic) <= k && !db[k].spent && db[k] == r
    {
      outputs, keys := [], [];
      var rest := db.Keys;
      while rest != {}
        invariant rest <= db.Keys && |outputs| == |keys|
        invariant forall i :: 0 <= i < |keys| ==> keys[i] in db && outputs[i] == db[keys[i]]
        invariant forall i, j :: 0 <= i < j < |keys| ==> keys[i] != keys[j]
        invariant forall k :: k in keys <==> k in db.Keys - rest && TopicPrefix(topic) <= k && !db[k].spent
        decreases rest
      {
        var k :| k in rest;
        rest := rest - {k};
        if TopicPrefix(topic) <= k && !db[k].spent {
          outputs, keys := outputs + [db[k]], keys + [k];
        }
      }
      DistinctCount(keys);
      assert (set k | k in keys) == set k | k in db && TopicPrefix(topic) <= k && !db[k].spent;
      forall k | k in keys
        ensures db[k] in outputs
      {
        var i :| 0 <= i < |keys| && keys[i] == k;
        assert outputs[i] == db[k];
      }
    }
  }

  lemma {:induction false} DistinctCount(keys: seq<string>)
    requires forall i, j :: 0 <= i < j < |keys| ==> keys[i] != keys[j]
    ensures |set k | k in keys| == |keys|
  {
    if keys != [] {
      var n := |keys| - 1;
      DistinctCount(keys[..n]);
      assert keys == keys[..n] + [keys[n]];
      assert (set k | k in keys) == (set k | k in keys[..n]) + {keys[n]};
    }
  }

  lemma {:induction false} AdmitKeepsKeys<M>(
      db: Index<M>, tx: Tx, topic: string, outputs: seq<nat>, metadata: map<nat, M>)
    requires OwnKeys(db)
    ensures OwnKeys(AdmitAll(db, tx, topic, outputs, metadata))
  {
    if outputs != [] {
      AdmitKeepsKeys(db, tx, topic, outputs[..|outputs| - 1], metadata);
    }
  }

  lemma {:induction false} RemoveKeepsKeys<M>(db: Index<M>, topic: string, previous: seq<Record<M>>, coins: seq<nat>)
    requires OwnKeys(db)
    ensures OwnKeys(RemoveAll(db, topic, previous, coins))
  {
    if coins != [] {
      RemoveKeepsKeys(db, topic, previous, coins[..|coins| - 1]);
    }
  }

  lemma TopicKeepsKeys<M>(managers: Managers<M>, db: Index<M>, tx: Tx, topic: string)
    requires OwnKeys(db)
    ensures OwnKeys(AfterTopic(managers, db, tx, topic))
  {
    var reply := Answer(managers, db, tx, topic);
    if reply.Some? {
      var ins := reply.value;
      AdmitKeepsKeys(db, tx, topic, ins.outputsToAdmit, ins.outputMetadata);
      RemoveKeepsKeys(AdmitAll(db, tx, topic, ins.outputsToAdmit, ins.outputMetadata),
                      topic, PreviousOf(db, topic, tx.inputs), ins.coinsRemoved);
    }
  }
}
