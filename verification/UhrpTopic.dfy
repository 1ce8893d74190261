/** The UHRP topic and its lookup service, BRC-26 (internal/overlay/topics). */
module UhrpTopic {
  import opened Wrappers
  import opened OverlayKeys
  import opened OverlayEngine
  import opened OverlaySubmit
  import opened UhrpScript
  import Hex

  const TOPIC := "tm_uhrp"

  // ------------------------------------------------------------- Admit

  function EntryIn(out: TxOutput): Option<Entry> {
    if out.script.None? then None else Advertised(out.script.value)
  }

  /** The outputs that advertise content, in order. */
  function Adverts(outputs: seq<TxOutput>): (r: seq<nat>)
    ensures forall j :: j in r <==> 0 <= j < |outputs| && EntryIn(outputs[j]).Some?
  {
    if outputs == [] then []
    else
      var n := |outputs| - 1;
      Adverts(outputs[..n]) + if EntryIn(outputs[n]).Some? then [n] else []
  }

  function Metadata(outputs: seq<TxOutput>): map<nat, Entry> {
    map j: nat | j < |outputs| && EntryIn(outputs[j]).Some? :: EntryIn(outputs[j]).value
  }

  /** 0, 1, ..., n - 1 */
  function UpTo(n: nat): (r: seq<nat>)
    ensures |r| == n && forall k :: 0 <= k < n ==> r[k] == k
  {
    if n == 0 then [] else UpTo(n - 1) + [n - 1]
  }

  function Admittance(tx: Tx, previous: seq<Record<Entry>>): Option<Instructions<Entry>> {
    if Adverts(tx.outputs) == [] && previous == [] then None
    else Some(Instructions(Adverts(tx.outputs), [], UpTo(|previous|), Metadata(tx.outputs)))
  }

  lemma NoAdverts()
    ensures Adverts([]) == [] && Metadata([]) == map[]
  {
  }

  lemma NextAdvert(outputs: seq<TxOutput>, i: nat)
    requires i < |outputs|
    ensures EntryIn(outputs[i]) == if outputs[i].script.None? then None else Advertised(outputs[i].script.value)
    ensures EntryIn(outputs[i]).None? ==>
      Adverts(outputs[..i + 1]) == Adverts(outputs[..i]) && Metadata(outputs[..i + 1]) == Metadata(outputs[..i])
    ensures EntryIn(outputs[i]).Some? ==>
      && Adverts(outputs[..i + 1]) == Adverts(outputs[..i]) + [i]
      && Metadata(outputs[..i + 1]) == Metadata(outputs[..i])[i := EntryIn(outputs[i]).value]
  {
    hide Advertised;
    assert outputs[..i + 1][..i] == outputs[..i];
  }

  predicate Increasing(r: seq<nat>) {
    forall i, j :: 0 <= i < j < |r| ==> r[i] < r[j]
  }

  lemma {:induction false} AdvertsIncrease(outputs: seq<TxOutput>)
    ensures Increasing(Adverts(outputs))
  {
    hide EntryIn;
    if outputs != [] {
      var n := |outputs| - 1;
      var init := Adverts(outputs[..n]);
      AdvertsIncrease(outputs[..n]);
      forall i | 0 <= i < |init|
        ensures init[i] < n
      {
        assert init[i] in init;
      }
    }
  }

  // The advertising outputs and their entries, without the names above.
  lemma AdvertsExactly(outputs: seq<TxOutput>)
    ensures Adverts(outputs) == [] <==>
      forall out :: out in outputs && out.script.Some? ==> Advertised(out.script.value).None?
    ensures forall j :: j in Adverts(outputs) <==>
      0 <= j < |outputs| && outputs[j].script.Some? && Advertised(outputs[j].script.value).Some?
    ensures Metadata(outputs).Keys == (set j | j in Adverts(outputs))
    ensures forall j :: j in Adverts(outputs) ==>
      Advertised(outputs[j].script.value) == Some(Metadata(outputs)[j])
  {
    hide Advertised;
    var r := Adverts(outputs);
    hide Adverts;
    if r != [] {
      assert r[0] in r && outputs[r[0]] in outputs;
    } else {
      forall out | out in outputs && out.script.Some?
        ensures Advertised(out.script.value).None?
      {
        var j :| 0 <= j < |outputs| && outputs[j] == out;
        assert j !in r;
      }
    }
  }

  /** UHRPTopicManager.Admit on a transaction that parses. */
  method Admit(tx: Tx, previous: seq<Record<Entry>>) returns (r: Option<Instructions<Entry>>)
    ensures r.None? <==>
      && previous == []
      && forall out :: out in tx.outputs && out.script.Some? ==> Advertised(out.script.value).None?
    ensures r.Some? ==>
      var ins := r.value;
      && (forall j :: j in ins.outputsToAdmit <==>
            && 0 <= j < |tx.outputs| && tx.outputs[j].script.Some?
            && Advertised(tx.outputs[j].script.value).Some?)
      && Increasing(ins.outputsToAdmit)
      && ins.outputMetadata.Keys == (set j | j in ins.outputsToAdmit)
      && (forall j :: j in ins.outputsToAdmit ==>
            Advertised(tx.outputs[j].script.value) == Some(ins.outputMetadata[j]))
      && |ins.coinsRemoved| == |previous| && (forall k :: 0 <= k < |previous| ==> ins.coinsRemoved[k] == k)
      && ins.coinsToRetain == []
    ensures r == Admittance(tx, previous)
  {
    AdvertsExactly(tx.outputs);
    AdvertsIncrease(tx.outputs);
    hide Advertised, EntryIn, Adverts, Metadata;
    NoAdverts();
    assert tx.outputs[..0] == [];
    var outputsToAdmit: seq<nat>, outputMetadata: map<nat, Entry> := [], map[];
    for i := 0 to |tx.outputs|
      invariant outputsToAdmit == Adverts(tx.outputs[..i])
      invariant outputMetadata == Metadata(tx.outputs[..i])
    {
      NextAdvert(tx.outputs, i);
      if tx.outputs[i].script.Some? {
        var entry := ParseUHRPOutput(tx.outputs[i].script.value);
        if entry.Some? {
          outputsToAdmit := outputsToAdmit + [i];
          outputMetadata := outputMetadata[i := entry.value];
        }
      }
    }
    assert tx.outputs[..|tx.outputs|] == tx.outputs;
    var coinsRemoved: seq<nat> := [];
    for i := 0 to |previous|
      invariant coinsRemoved == UpTo(i)
    {
      coinsRemoved := coinsRemoved + [i];
    }
    if |outputsToAdmit| == 0 && |coinsRemoved| == 0 {
      return None;
    }
    return Some(Instructions(outputsToAdmit, [], coinsRemoved, outputMetadata));
  }

  // ------------------------------------------- the index tells the history

  datatype Submission = Submission(tx: Tx, topics: seq<string>)

  /** The engine routes tm_uhrp to this manager, whatever else it serves. */
  ghost predicate ServesUhrp(managers: Managers<Entry>) {
    && TOPIC in managers
    && forall tx: Tx, previous: seq<Record<Entry>> :: managers[TOPIC](tx, previous) == Admittance(tx, previous)
  }

  ghost predicate SpendsOwnOutput(tx: Tx) {
    exists o: Outpoint :: o.txid == tx.txid && Some(o) in tx.inputs
  }

  ghost predicate AllProper(subs: seq<Submission>) {
    forall i :: 0 <= i < |subs| ==> !SpendsOwnOutput(subs[i].tx)
  }

  ghost function IndexAfter(managers: Managers<Entry>, subs: seq<Submission>): Index<Entry> {
    if subs == [] then map[]
    else
      var last := subs[|subs| - 1];
      Submitted(managers, IndexAfter(managers, subs[..|subs| - 1]), last.tx, last.topics)
  }

  predicate Creates(s: Submission, o: Outpoint) {
    && TOPIC in s.topics && o.txid == s.tx.txid && o.vout < |s.tx.outputs|
    && s.tx.outputs[o.vout].script.Some? && Advertised(s.tx.outputs[o.vout].script.value).Some?
  }

  /** The record of an output that advertises: its own script and value, and what the script advertises. */
  function CreatedBy(tx: Tx, o: Outpoint): Record<Entry>
    requires o.vout < |tx.outputs| && tx.outputs[o.vout].script.Some?
  {
    var out := tx.outputs[o.vout];
    Record(o, "tm_uhrp", out.script, out.satoshis, Advertised(out.script.value), false)
  }

  predicate SpendsOutput(s: Submission, o: Outpoint) {
    TOPIC in s.topics && Some(o) in s.tx.inputs
  }

  /** The latest submission to the topic that creates or spends o is the i-th, and it creates o. */
  ghost predicate LastCreated(subs: seq<Submission>, o: Outpoint, i: nat) {
    && i < |subs| && Creates(subs[i], o)
    && forall j :: i < j < |subs| ==> !Creates(subs[j], o) && !SpendsOutput(subs[j], o)
  }

  lemma {:induction false} IndexKeepsKeys(managers: Managers<Entry>, subs: seq<Submission>)
    ensures OwnKeys(IndexAfter(managers, subs))
  {
    if subs != [] {
      var last := subs[|subs| - 1];
      IndexKeepsKeys(managers, subs[..|subs| - 1]);
      SubmitKeepsKeys(managers, IndexAfter(managers, subs[..|subs| - 1]), last.tx, last.topics);
    }
  }

  lemma {:induction false} SubmitKeepsKeys<M>(managers: Managers<M>, db: Index<M>, tx: Tx, topics: seq<string>)
    requires OwnKeys(db)
    ensures OwnKeys(Submitted(managers, db, tx, topics))
  {
    if topics != [] {
      var n := |topics| - 1;
      SubmitKeepsKeys(managers, db, tx, topics[..n]);
      TopicKeepsKeys(managers, Submitted(managers, db, tx, topics[..n]), tx, topics[n]);
    }
  }

  // A transaction's UHRP answer removes exactly the live outputs it spends.
  lemma RemovesWhatIsSpent(db: Index<Entry>, tx: Tx, o: Outpoint)
    requires OwnKeys(db)
    ensures var previous := PreviousOf(db, TOPIC, tx.inputs);
      && (Removes(previous, UpTo(|previous|), o) <==> Live(db, TOPIC, o) && Some(o) in tx.inputs)
      && (previous == [] ==> !(Live(db, TOPIC, o) && Some(o) in tx.inputs))
  {
    var previous, spending := PreviousOf(db, TOPIC, tx.inputs), SpendingInputs(db, TOPIC, tx.inputs);
    PreviousAreInputs(db, TOPIC, tx.inputs);
    if Live(db, TOPIC, o) && Some(o) in tx.inputs {
      var i :| 0 <= i < |tx.inputs| && tx.inputs[i] == Some(o);
      assert Spends(db, TOPIC, tx.inputs[i]);
      var k :| 0 <= k < |spending| && spending[k] == i;
      assert UpTo(|previous|)[k] == k && previous[k].outpoint == o;
    }
  }

  /** One submission: an output it creates is live, one it spends is not, and any other is as before. */
  lemma StepEffect(managers: Managers<Entry>, db: Index<Entry>, s: Submission, o: Outpoint)
    requires ServesUhrp(managers) && OwnKeys(db) && !SpendsOwnOutput(s.tx)
    ensures var after := Submitted(managers, db, s.tx, s.topics);
      && (Live(after, TOPIC, o) <==> Creates(s, o) || (Live(db, TOPIC, o) && !SpendsOutput(s, o)))
      && (Creates(s, o) ==> after[KeyOf(TOPIC, o)] == CreatedBy(s.tx, o))
      && (!Creates(s, o) && Live(after, TOPIC, o) ==> after[KeyOf(TOPIC, o)] == db[KeyOf(TOPIC, o)])
  {
    TopicsStep(managers, db, s.tx, s.topics, o);
  }

  // However often the topic is listed, and whatever else is.
  lemma {:induction false} TopicsStep(
      managers: Managers<Entry>, db: Index<Entry>, tx: Tx, topics: seq<string>, o: Outpoint)
    requires ServesUhrp(managers) && OwnKeys(db) && !SpendsOwnOutput(tx)
    ensures var after, created := Submitted(managers, db, tx, topics), Admits(tx, Adverts(tx.outputs), o);
      if TOPIC in topics then
        && (Live(after, TOPIC, o) <==> created || (Live(db, TOPIC, o) && Some(o) !in tx.inputs))
        && (created ==> after[KeyOf(TOPIC, o)] == NewRecord(tx, TOPIC, o.vout, Metadata(tx.outputs)))
        && (!created && Live(after, TOPIC, o) ==> after[KeyOf(TOPIC, o)] == db[KeyOf(TOPIC, o)])
      else SameOutput(after, db, TOPIC, o)
  {
    hide Adverts, Metadata, NewRecord, KeyOf, AfterTopic, SpendsOwnOutput;
    if topics != [] {
      var n := |topics| - 1;
      var before := Submitted(managers, db, tx, topics[..n]);
      TopicsStep(managers, db, tx, topics[..n], o);
      SubmitKeepsKeys(managers, db, tx, topics[..n]);
      assert topics == topics[..n] + [topics[n]];
      if topics[n] == TOPIC {
        TopicStep(managers, before, tx, o);
      } else {
        OtherTopicsUntouched(managers, before, tx, topics[n], TOPIC);
        assert SameOutput(AfterTopic(managers, before, tx, topics[n]), before, TOPIC, o);
      }
    }
  }

  lemma TopicStep(managers: Managers<Entry>, db: Index<Entry>, tx: Tx, o: Outpoint)
    requires ServesUhrp(managers) && OwnKeys(db) && !SpendsOwnOutput(tx)
    ensures var after, created := AfterTopic(managers, db, tx, TOPIC), Admits(tx, Adverts(tx.outputs), o);
      && (Live(after, TOPIC, o) <==> created || (Live(db, TOPIC, o) && Some(o) !in tx.inputs))
      && (created ==> after[KeyOf(TOPIC, o)] == NewRecord(tx, TOPIC, o.vout, Metadata(tx.outputs)))
      && (!created && Live(after, TOPIC, o) ==> after[KeyOf(TOPIC, o)] == db[KeyOf(TOPIC, o)])
  {
    hide Adverts, Metadata, PreviousOf, KeyOf;
    var previous := PreviousOf(db, TOPIC, tx.inputs);
    assert Answer(managers, db, tx, TOPIC) == Admittance(tx, previous);
    RemovesWhatIsSpent(db, tx, o);
    if Admittance(tx, previous).Some? {
      TopicEffect(managers, db, tx, TOPIC, o);
    }
  }

  /** An output is indexed exactly when the latest submission to touch it creates it, and then with that submission's
      entry. */
  lemma {:induction false} IndexIsHistory(managers: Managers<Entry>, subs: seq<Submission>, o: Outpoint)
    requires ServesUhrp(managers) && AllProper(subs)
    ensures var db := IndexAfter(managers, subs);
      && (Live(db, TOPIC, o) <==> exists i :: LastCreated(subs, o, i))
      && (forall i: nat :: LastCreated(subs, o, i) ==>
            Live(db, TOPIC, o) && db[KeyOf(TOPIC, o)] == CreatedBy(subs[i].tx, o))
  {
    hide KeyOf, CreatedBy, Submitted;
    if subs != [] {
      var n := |subs| - 1;
      var db := IndexAfter(managers, subs[..n]);
      IndexIsHistory(managers, subs[..n], o);
      IndexKeepsKeys(managers, subs[..n]);
      StepEffect(managers, db, subs[n], o);
      LastCreatedStep(subs, o);
      if Live(IndexAfter(managers, subs), TOPIC, o) && !Creates(subs[n], o) {
        var i :| LastCreated(subs[..n], o, i);
        assert LastCreated(subs, o, i);
      }
      forall i: nat | LastCreated(subs, o, i)
        ensures i != n ==> LastCreated(subs[..n], o, i) && subs[i] == subs[..n][i]
      {
      }
    }
  }

  lemma LastCreatedStep(subs: seq<Submission>, o: Outpoint)
    requires subs != [] && AllProper(subs)
    ensures var n := |subs| - 1;
      && (LastCreated(subs, o, n) <==> Creates(subs[n], o))
      && (forall i: nat :: LastCreated(subs, o, i) && i != n ==>
            LastCreated(subs[..n], o, i) && !Creates(subs[n], o) && !SpendsOutput(subs[n], o))
      && (forall i: nat :: LastCreated(subs[..n], o, i) && !Creates(subs[n], o) && !SpendsOutput(subs[n], o) ==>
            LastCreated(subs, o, i))
  {
    var n := |subs| - 1;
    assert subs[..n] + [subs[n]] == subs;
  }

  // ---------------------------------------------- a topic listed twice

  lemma NothingLeftToSpend(managers: Managers<Entry>, db: Index<Entry>, tx: Tx)
    requires ServesUhrp(managers) && OwnKeys(db) && !SpendsOwnOutput(tx)
    ensures PreviousOf(AfterTopic(managers, db, tx, TOPIC), TOPIC, tx.inputs) == []
  {
    var after := AfterTopic(managers, db, tx, TOPIC);
    var spending := SpendingInputs(after, TOPIC, tx.inputs);
    if spending != [] {
      var o := tx.inputs[spending[0]].value;
      assert Some(o) in tx.inputs;
      TopicStep(managers, db, tx, o);
    }
  }

  function Listings(topics: seq<string>): nat {
    if topics == [] then 0
    else Listings(topics[..|topics| - 1]) + if topics[|topics| - 1] == TOPIC then 1 else 0
  }

  /** The answer to a transaction whose spends have all been processed already. */
  function ReplyAgain(tx: Tx): Instructions<Entry> {
    Instructions(Adverts(tx.outputs), [], [], Metadata(tx.outputs))
  }

  lemma SpentReply(managers: Managers<Entry>, db: Index<Entry>, tx: Tx)
    requires ServesUhrp(managers) && OwnKeys(db) && PreviousOf(db, TOPIC, tx.inputs) == []
    ensures Reply(managers, db, tx, TOPIC) == if Adverts(tx.outputs) == [] then None else Some(ReplyAgain(tx))
  {
    hide Adverts, Metadata, SpendingInputs, PreviousOf;
    assert Answer(managers, db, tx, TOPIC) == Admittance(tx, []);
  }

  // What the topic's STEAK entry is, by how often it is listed.
  lemma {:induction false} ListedReply(managers: Managers<Entry>, db: Index<Entry>, tx: Tx, topics: seq<string>)
    requires ServesUhrp(managers) && OwnKeys(db) && !SpendsOwnOutput(tx)
    requires Reply(managers, db, tx, TOPIC).Some?
    ensures var after, steak := Submitted(managers, db, tx, topics), Steak(managers, db, tx, topics);
      var n := Listings(topics);
      && (n == 0 ==> SameTopic(after, db, TOPIC))
      && (n > 0 ==> PreviousOf(after, TOPIC, tx.inputs) == [] && TOPIC in steak)
      && (n == 1 || (n > 1 && Adverts(tx.outputs) == []) ==> steak[TOPIC] == Reply(managers, db, tx, TOPIC).value)
      && (n > 1 && Adverts(tx.outputs) != [] ==> steak[TOPIC] == ReplyAgain(tx))
  {
    hide AfterTopic, Adverts, Metadata, SpendingInputs, PreviousOf, Reply, ReplyAgain, SameOutput, SpendsOwnOutput;
    if topics == [] {
      SameRefl(db, TOPIC);
    } else {
      var init, last := topics[..|topics| - 1], topics[|topics| - 1];
      var before := Submitted(managers, db, tx, init);
      ListedReply(managers, db, tx, init);
      SubmitKeepsKeys(managers, db, tx, init);
      if last == TOPIC {
        NothingLeftToSpend(managers, before, tx);
        if Listings(init) == 0 {
          TopicSeesItself(managers, before, db, tx, TOPIC);
        } else {
          SpentReply(managers, before, tx);
        }
      } else {
        OtherTopicsUntouched(managers, before, tx, last, TOPIC);
        SameSpending(AfterTopic(managers, before, tx, last), before, TOPIC, tx.inputs);
        if Listings(init) == 0 {
          SameTopicTrans(AfterTopic(managers, before, tx, last), before, db, TOPIC);
        }
      }
    }
  }

  /** Listing the topic more than once costs the STEAK the coins removed, exactly when the transaction advertises and
      had coins to remove. */
  lemma RepeatedTopicLosesRemovals(managers: Managers<Entry>, db: Index<Entry>, tx: Tx, topics: seq<string>)
    requires ServesUhrp(managers) && OwnKeys(db) && !SpendsOwnOutput(tx)
    requires Reply(managers, db, tx, TOPIC).Some? && Listings(topics) >= 2
    ensures var steak := Steak(managers, db, tx, topics);
      TOPIC in steak
      && (steak[TOPIC] == Reply(managers, db, tx, TOPIC).value <==>
          Adverts(tx.outputs) == [] || PreviousOf(db, TOPIC, tx.inputs) == [])
  {
    ListedReply(managers, db, tx, topics);
    hide Adverts, Metadata, SpendingInputs, PreviousOf, Remapped, Steak;
    var previous := PreviousOf(db, TOPIC, tx.inputs);
    assert Answer(managers, db, tx, TOPIC) == Admittance(tx, previous);
    PreviousAreInputs(db, TOPIC, tx.inputs);
    RemappedNamesInputs(SpendingInputs(db, TOPIC, tx.inputs), UpTo(|previous|));
    RemappedNamesInputs(SpendingInputs(db, TOPIC, tx.inputs), []);
  }

  // ------------------------------------------------------------- Lookup

  /** A query that unmarshals; an empty string is a field left out. */
  datatype Query = Query(contentHash: string, list: string)

  datatype LookupAnswer = OutputList(outputs: seq<Record<Entry>>) | HashCounts(counts: map<string, nat>) | BadQuery

  /** The topic's stored outputs that are unspent. */
  predicate Scanned(db: Index<Entry>, k: string) {
    k in db && TopicPrefix(TOPIC) <= k && !db[k].spent
  }

  predicate HasHash(r: Record<Entry>, hash: string) {
    r.metadata.Some? && Hex.ToLower(r.metadata.value.contentHash) == Hex.ToLower(hash)
  }

  predicate IsExactly(r: Record<Entry>, hash: string) {
    r.metadata.Some? && r.metadata.value.contentHash == hash
  }

  ghost predicate Listed(db: Index<Entry>, outputs: seq<Record<Entry>>, keys: seq<string>) {
    && |outputs| == |keys|
    && (forall i :: 0 <= i < |keys| ==> keys[i] in db && outputs[i] == db[keys[i]])
    && (forall i, j :: 0 <= i < j < |keys| ==> keys[i] != keys[j])
  }

  function Counted(counts: map<string, nat>, hash: string): nat {
    if hash in counts then counts[hash] else 0
  }

  /** How many of the outputs carry this very hash. */
  function Occurrences(outputs: seq<Record<Entry>>, hash: string): nat {
    if outputs == [] then 0
    else
      var n := |outputs| - 1;
      Occurrences(outputs[..n], hash) + if IsExactly(outputs[n], hash) then 1 else 0
  }

  function Carriers(outputs: seq<Record<Entry>>, hash: string): set<nat> {
    set i: nat | i < |outputs| && outputs[i].metadata.Some? && outputs[i].metadata.value.contentHash == hash
  }

  lemma {:induction false} OccurrencesExactly(outputs: seq<Record<Entry>>, hash: string)
    ensures Occurrences(outputs, hash) == |Carriers(outputs, hash)|
  {
    if outputs != [] {
      var n := |outputs| - 1;
      OccurrencesExactly(outputs[..n], hash);
      var init, last := Carriers(outputs[..n], hash), if IsExactly(outputs[n], hash) then {n} else {};
      assert Carriers(outputs, hash) == init + last;
    } else {
      assert Carriers(outputs, hash) == {};
    }
  }

  class UhrpLookupService {
    const engine: Engine<Entry>

    constructor (engine: Engine<Entry>)
      ensures this.engine == engine
    {
      this.engine := engine;
    }

    /** Lookup; the keys of the listed outputs, and the outputs that were counted, are returned beside the answer. */
    method Lookup(q: Query)
        returns (answer: LookupAnswer, ghost keys: seq<string>, ghost all: seq<Record<Entry>>)
      ensures answer.OutputList? <==> q.contentHash != "" || q.list == "all"
      ensures answer.HashCounts? <==> q.contentHash == "" && q.list == "hashes"
      ensures answer.OutputList? ==> Listed(engine.db, answer.outputs, keys)
      ensures q.contentHash != "" ==>
        forall k :: k in keys <==> Scanned(engine.db, k) && HasHash(engine.db[k], q.contentHash)
      ensures q.contentHash != "" ==>
        forall r :: r in answer.outputs <==>
          HasHash(r, q.contentHash) && exists k :: Scanned(engine.db, k) && engine.db[k] == r
      ensures q.contentHash == "" ==> Listed(engine.db, all, keys)
      ensures q.contentHash == "" ==> forall k :: k in keys <==> Scanned(engine.db, k)
      ensures answer.HashCounts? ==> forall h :: Counted(answer.counts, h) == |Carriers(all, h)|
      ensures answer.HashCounts? ==> forall h :: h in answer.counts ==> answer.counts[h] > 0
    {
      var outputs;
      outputs, keys := engine.GetOutputsByTopic(TOPIC);
      all := outputs;
      if q.contentHash != "" {
        var matches;
        matches, keys := Matching(outputs, q.contentHash, keys);
        answer := OutputList(matches);
      } else if q.list == "all" {
        answer := OutputList(outputs);
      } else if q.list == "hashes" {
        var counts := CountHashes(outputs);
        forall h
          ensures Occurrences(outputs, h) == |Carriers(outputs, h)|
        {
          OccurrencesExactly(outputs, h);
        }
        answer := HashCounts(counts);
      } else {
        answer := BadQuery;
      }
    }

    method Matching(outputs: seq<Record<Entry>>, contentHash: string, ghost keys: seq<string>)
        returns (matches: seq<Record<Entry>>, ghost matched: seq<string>)
      requires Listed(engine.db, outputs, keys)
      ensures Listed(engine.db, matches, matched)
      ensures forall k :: k in matched <==> k in keys && HasHash(engine.db[k], contentHash)
      ensures forall r :: r in matches <==> r in outputs && HasHash(r, contentHash)
    {
      var hash := Hex.ToLower(contentHash);
      matches, matched := [], [];
      for i := 0 to |outputs|
        invariant Listed(engine.db, matches, matched)
        invariant forall k :: k in matched <==> k in keys[..i] && HasHash(engine.db[k], contentHash)
        invariant forall r :: r in matches <==> r in outputs[..i] && HasHash(r, contentHash)
      {
        assert keys[..i + 1] == keys[..i] + [keys[i]] && keys[i] !in keys[..i];
        assert outputs[..i + 1] == outputs[..i] + [outputs[i]];
        if outputs[i].metadata.Some? && Hex.ToLower(outputs[i].metadata.value.contentHash) == hash {
          matches, matched := matches + [outputs[i]], matched + [keys[i]];
        }
      }
      assert keys[..|outputs|] == keys && outputs[..|outputs|] == outputs;
    }

    static method CountHashes(outputs: seq<Record<Entry>>) returns (counts: map<string, nat>)
      ensures forall h :: Counted(counts, h) == Occurrences(outputs, h)
      ensures forall h :: h in counts ==> counts[h] > 0
    {
      counts := map[];
      for i := 0 to |outputs|
        invariant forall h :: Counted(counts, h) == Occurrences(outputs[..i], h)
        invariant forall h :: h in counts ==> counts[h] > 0
      {
        assert outputs[..i + 1][..i] == outputs[..i];
        if outputs[i].metadata.Some? {
          var h := outputs[i].metadata.value.contentHash;
          counts := counts[h := Counted(counts, h) + 1];
        }
      }
      assert outputs[..|outputs|] == outputs;
    }
  }

  // -------------------------------------------- lookups tell the history

  /** Every record belongs to a topic the engine serves and is unspent. */
  ghost predicate Served<M>(managers: Managers<M>, db: Index<M>) {
    forall k :: k in db ==> db[k].topic in managers && !db[k].spent
  }

  /** No other topic's name continues this one's after a colon. */
  ghost predicate NotNested<M>(managers: Managers<M>) {
    forall t :: t in managers ==> !(TOPIC + ":" <= t)
  }

  lemma {:induction false} AdmitKeepsServed<M>(
      managers: Managers<M>, db: Index<M>, tx: Tx, topic: string, outputs: seq<nat>, metadata: map<nat, M>)
    requires Served(managers, db) && topic in managers
    ensures Served(managers, AdmitAll(db, tx, topic, outputs, metadata))
  {
    if outputs != [] {
      AdmitKeepsServed(managers, db, tx, topic, outputs[..|outputs| - 1], metadata);
    }
  }

  lemma {:induction false} RemoveKeepsServed<M>(
      managers: Managers<M>, db: Index<M>, topic: string, previous: seq<Record<M>>, coins: seq<nat>)
    requires Served(managers, db)
    ensures Served(managers, RemoveAll(db, topic, previous, coins))
  {
    if coins != [] {
      RemoveKeepsServed(managers, db, topic, previous, coins[..|coins| - 1]);
    }
  }

  lemma {:induction false} SubmitKeepsServed<M>(managers: Managers<M>, db: Index<M>, tx: Tx, topics: seq<string>)
    requires Served(managers, db)
    ensures Served(managers, Submitted(managers, db, tx, topics))
  {
    if topics != [] {
      var n := |topics| - 1;
      var before, topic := Submitted(managers, db, tx, topics[..n]), topics[n];
      SubmitKeepsServed(managers, db, tx, topics[..n]);
      var reply := Answer(managers, before, tx, topic);
      if reply.Some? {
        var ins := reply.value;
        AdmitKeepsServed(managers, before, tx, topic, ins.outputsToAdmit, ins.outputMetadata);
        RemoveKeepsServed(managers, AdmitAll(before, tx, topic, ins.outputsToAdmit, ins.outputMetadata),
                          topic, PreviousOf(before, topic, tx.inputs), ins.coinsRemoved);
      }
    }
  }

  lemma {:induction false} IndexKeepsServed(managers: Managers<Entry>, subs: seq<Submission>)
    ensures Served(managers, IndexAfter(managers, subs))
  {
    if subs != [] {
      var last := subs[|subs| - 1];
      IndexKeepsServed(managers, subs[..|subs| - 1]);
      SubmitKeepsServed(managers, IndexAfter(managers, subs[..|subs| - 1]), last.tx, last.topics);
    }
  }

  /** The scan behind a lookup visits the keys of the topic's live outputs, and besides them exactly those of topics
      whose names continue this one's after a colon. */
  lemma ScanIsLive(db: Index<Entry>, k: string)
    requires OwnKeys(db) && (k in db ==> !db[k].spent)
    ensures Scanned(db, k) <==>
            (exists o: Outpoint :: Live(db, TOPIC, o) && k == KeyOf(TOPIC, o)) ||
            (k in db && TOPIC + ":" <= db[k].topic)
  {
    if k in db {
      var r := db[k];
      ScanMatchesExactly(TOPIC, r.topic, r.outpoint.txid, r.outpoint.vout);
      assert (r.topic + ":" + r.outpoint.txid)[|r.topic|] == ':' && ':' !in TOPIC;
      if r.topic == TOPIC {
        assert Live(db, TOPIC, r.outpoint) && k == KeyOf(TOPIC, r.outpoint);
      }
      forall o: Outpoint | Live(db, TOPIC, o) && k == KeyOf(TOPIC, o)
        ensures r.topic == TOPIC
      {
        KeysDiffer(TOPIC, o, r.topic, r.outpoint);
      }
    }
  }

  /** When no served topic is so named, a lookup lists live outputs of the topic alone. */
  lemma LookupHasNoStrangers(managers: Managers<Entry>, subs: seq<Submission>, k: string)
    requires NotNested(managers) && Scanned(IndexAfter(managers, subs), k)
    ensures var db := IndexAfter(managers, subs); Live(db, TOPIC, db[k].outpoint) && k == KeyOf(TOPIC, db[k].outpoint)
  {
    var db := IndexAfter(managers, subs);
    IndexKeepsKeys(managers, subs);
    IndexKeepsServed(managers, subs);
    ScanIsLive(db, k);
    var o: Outpoint :| Live(db, TOPIC, o) && k == KeyOf(TOPIC, o);
    KeysDiffer(TOPIC, o, db[k].topic, db[k].outpoint);
  }

  ghost predicate LastAdvertised(subs: seq<Submission>, o: Outpoint, hash: string, i: nat) {
    && LastCreated(subs, o, i)
    && Hex.ToLower(Advertised(subs[i].tx.outputs[o.vout].script.value).value.contentHash) == Hex.ToLower(hash)
  }

  /** A lookup by hash lists an output exactly when the latest submission to touch it advertises that hash there. */
  lemma LookupIsHistory(managers: Managers<Entry>, subs: seq<Submission>, hash: string, o: Outpoint)
    requires ServesUhrp(managers) && AllProper(subs)
    ensures var db, k := IndexAfter(managers, subs), KeyOf(TOPIC, o);
      Scanned(db, k) && HasHash(db[k], hash) <==> exists i :: LastAdvertised(subs, o, hash, i)
  {
    var db, k := IndexAfter(managers, subs), KeyOf(TOPIC, o);
    hide KeyOf;
    IndexKeepsKeys(managers, subs);
    IndexKeepsServed(managers, subs);
    IndexIsHistory(managers, subs, o);
    ScanIsLive(db, k);
    forall i: nat | LastCreated(subs, o, i)
      ensures Live(db, TOPIC, o) && db[k].metadata == Advertised(subs[i].tx.outputs[o.vout].script.value)
    {
    }
    if Scanned(db, k) && HasHash(db[k], hash) {
      var p: Outpoint :| Live(db, TOPIC, p) && k == KeyOf(TOPIC, p);
      KeysDiffer(TOPIC, p, TOPIC, o);
      var i: nat :| LastCreated(subs, o, i);
      assert LastAdvertised(subs, o, hash, i);
    }
  }
}
