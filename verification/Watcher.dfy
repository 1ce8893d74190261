/** The mempool address watcher (internal/mempool/watcher.go). */
module MempoolWatcher {
  import opened Numbers
  import opened Wrappers
  import opened OverlayKeys
  import opened OverlayEngine

  type Hash160 = h: seq<byte> | |h| == 20 witness seq(20, _ => 0)

  datatype PaidOutput = PaidOutput(value: int, pkScript: seq<byte>)

  datatype Seen = Seen(txid: Txid, outputs: seq<PaidOutput>, inputs: seq<Outpoint>)

  /** WatchHit */
  datatype Hit = Hit(
    address: string, outpoint: Outpoint, satoshis: int, script: seq<byte>, timestamp: int,
    spent: bool, spentBy: Option<Txid>)

  /** The persisted records, by address and outpoint. */
  type Store = map<(string, Outpoint), Hit>

  datatype State = State(
    watches: map<Hash160, string>, utxos: map<Outpoint, string>, db: Store, hits: nat, spends: nat, loaded: nat)

  /** extractP2PKHHash160 */
  function PayeeOf(pkScript: seq<byte>): Option<Hash160> {
    if |pkScript| == 25 && pkScript[..3] == [0x76, 0xa9, 0x14] && pkScript[23] == 0x88 && pkScript[24] == 0xac
    then Some(pkScript[3..23])
    else None
  }

  /** One round of the output loop. */
  function Receive(s: State, o: Outpoint, out: PaidOutput, now: int): State {
    var payee := PayeeOf(out.pkScript);
    if payee.None? || payee.value !in s.watches then s
    else
      var addr := s.watches[payee.value];
      s.(hits := s.hits + 1, utxos := s.utxos[o := addr],
         db := s.db[(addr, o) := Hit(addr, o, out.value, out.pkScript, now, false, None)])
  }

  /** persistSpend: the record, if there is one, is marked as spent. */
  function MarkSpent(db: Store, key: (string, Outpoint), spender: Txid): Store {
    if key in db then db[key := db[key].(spent := true, spentBy := Some(spender))] else db
  }

  /** One round of the input loop. */
  function Spend(s: State, o: Outpoint, spender: Txid): State {
    if o !in s.utxos then s
    else s.(spends := s.spends + 1, utxos := s.utxos - {o}, db := MarkSpent(s.db, (s.utxos[o], o), spender))
  }

  function ReceiveAll(s: State, tx: Seen, n: nat, now: int): State
    requires n <= |tx.outputs|
  {
    if n == 0 then s else Receive(ReceiveAll(s, tx, n - 1, now), Outpoint(tx.txid, n - 1), tx.outputs[n - 1], now)
  }

  function SpendAll(s: State, tx: Seen, n: nat): State
    requires n <= |tx.inputs|
  {
    if n == 0 then s else Spend(SpendAll(s, tx, n - 1), tx.inputs[n - 1], tx.txid)
  }

  /** CheckTx on what the raw bytes decode to, if they decode. */
  function Checked(s: State, tx: Option<Seen>, now: int): State {
    if (|s.watches| == 0 && |s.utxos| == 0) || tx.None? then s
    else SpendAll(ReceiveAll(s, tx.value, |tx.value.outputs|, now), tx.value, |tx.value.inputs|)
  }

  predicate Names(hit: Hit, o: Outpoint, addr: string) {
    hit.outpoint == o && hit.address == addr
  }

  /** What loadUTXOs rebuilds: every outpoint of an unspent record, under the address of such a record. */
  ghost predicate Rebuilds(db: Store, utxos: map<Outpoint, string>) {
    && (forall k :: k in db && !db[k].spent ==> db[k].outpoint in utxos)
    && (forall o :: o in utxos ==> exists k :: k in Unspent(db) && Names(db[k], o, utxos[o]))
  }

  function Unspent(db: Store): set<(string, Outpoint)> {
    set k | k in db && !db[k].spent
  }

  /** A newly started watcher over the same database. */
  ghost predicate Restarted(s: State, s': State) {
    && s'.db == s.db && Rebuilds(s.db, s'.utxos) && s'.loaded == |Unspent(s.db)|
    && s'.watches == map[] && s'.hits == 0 && s'.spends == 0
  }

  /** NewAddressFromString, where the address has a 20-byte hash. */
  type AddressDecoder = string -> Option<Hash160>

  /** Exactly the 25-byte pay-to-public-key-hash script of h names h as its payee. */
  lemma PayeeExactly(pkScript: seq<byte>, h: Hash160)
    ensures PayeeOf(pkScript) == Some(h) <==> pkScript == [0x76, 0xa9, 0x14] + h + [0x88, 0xac]
  {
    var s := [0x76, 0xa9, 0x14] + h + [0x88, 0xac];
    assert s[..3] == [0x76, 0xa9, 0x14] && s[3..23] == h;
    if PayeeOf(pkScript) == Some(h) {
      assert pkScript == pkScript[..3] + pkScript[3..23] + [pkScript[23], pkScript[24]];
    }
  }

  // -------------------------------------------- what one transaction changes

  /** Output v pays a watched hash. */
  predicate PaysWatched(s: State, tx: Seen, v: nat) {
    v < |tx.outputs| && PayeeOf(tx.outputs[v].pkScript).Some? && PayeeOf(tx.outputs[v].pkScript).value in s.watches
  }

  predicate IsPaid(s: State, tx: Seen, o: Outpoint) {
    o.txid == tx.txid && PaysWatched(s, tx, o.vout)
  }

  /** The watched address output v pays. */
  function PaidAddress(s: State, tx: Seen, v: nat): string
    requires PaysWatched(s, tx, v)
  {
    s.watches[PayeeOf(tx.outputs[v].pkScript).value]
  }

  /** The address an outpoint is tracked under once the outputs have been seen. */
  function OwnerOf(s: State, tx: Seen, o: Outpoint): Option<string> {
    if IsPaid(s, tx, o) then Some(PaidAddress(s, tx, o.vout))
    else if o in s.utxos then Some(s.utxos[o])
    else None
  }

  /** The record kept for an address and outpoint once the outputs have been seen. */
  function RecordOf(s: State, tx: Seen, now: int, a: string, o: Outpoint): Option<Hit> {
    if IsPaid(s, tx, o) && a == PaidAddress(s, tx, o.vout)
    then Some(Hit(a, o, tx.outputs[o.vout].value, tx.outputs[o.vout].pkScript, now, false, None))
    else if (a, o) in s.db then Some(s.db[(a, o)])
    else None
  }

  /** The outputs below n that pay a watched hash. */
  function PaidBelow(s: State, tx: Seen, n: nat): set<nat> {
    set v: nat | 0 <= v < n && PaysWatched(s, tx, v)
  }

  /** What CheckTx does with a transaction. Every output that pays a watched hash is tracked under its address, with an
      unspent record of its value and script. Every input that is tracked then is tracked no longer, and its record
      names this transaction as its spender. Both are counted, and nothing else changes. */
  ghost predicate Effect(s: State, s': State, tx: Seen, now: int) {
    && (forall o :: o in s'.utxos <==> o !in tx.inputs && OwnerOf(s, tx, o).Some?)
    && (forall o :: o in s'.utxos ==> OwnerOf(s, tx, o) == Some(s'.utxos[o]))
    && (forall a, o :: (a, o) in s'.db <==> RecordOf(s, tx, now, a, o).Some?)
    && (forall a, o :: (a, o) in s'.db ==>
          var hit := RecordOf(s, tx, now, a, o).value;
          s'.db[(a, o)] == if o in tx.inputs && OwnerOf(s, tx, o) == Some(a)
                           then hit.(spent := true, spentBy := Some(tx.txid)) else hit)
    && s'.hits == s.hits + |PaidBelow(s, tx, |tx.outputs|)|
    && s'.spends == s.spends + |set o | o in tx.inputs && OwnerOf(s, tx, o).Some?|
    && s'.watches == s.watches && s'.loaded == s.loaded
  }

  // One outpoint, and one record of it, while the outputs are seen.
  lemma {:induction false} ReceivedAt(s: State, tx: Seen, n: nat, now: int, a: string, o: Outpoint)
    requires n <= |tx.outputs|
    ensures var r := ReceiveAll(s, tx, n, now);
      var paid := IsPaid(s, tx, o) && o.vout < n;
      && r.watches == s.watches && r.loaded == s.loaded && r.spends == s.spends
      && (o in r.utxos <==> paid || o in s.utxos)
      && (o in r.utxos ==> r.utxos[o] == if paid then PaidAddress(s, tx, o.vout) else s.utxos[o])
      && ((a, o) in r.db <==> (paid && a == PaidAddress(s, tx, o.vout)) || (a, o) in s.db)
      && ((a, o) in r.db ==>
            r.db[(a, o)] ==
              if paid && a == PaidAddress(s, tx, o.vout)
              then Hit(a, o, tx.outputs[o.vout].value, tx.outputs[o.vout].pkScript, now, false, None)
              else s.db[(a, o)])
  {
    hide PayeeOf;
    if n > 0 {
      ReceivedAt(s, tx, n - 1, now, a, o);
    }
  }

  lemma {:induction false} ReceivedCount(s: State, tx: Seen, n: nat, now: int)
    requires n <= |tx.outputs|
    ensures ReceiveAll(s, tx, n, now).hits == s.hits + |PaidBelow(s, tx, n)|
    ensures ReceiveAll(s, tx, n, now).watches == s.watches
  {
    hide PayeeOf;
    if n > 0 {
      ReceivedCount(s, tx, n - 1, now);
      assert PaidBelow(s, tx, n) == PaidBelow(s, tx, n - 1) + if PaysWatched(s, tx, n - 1) then {n - 1} else {};
    }
  }

  // And while the inputs are seen.
  lemma {:induction false} SpentAt(s: State, tx: Seen, n: nat, a: string, o: Outpoint)
    requires n <= |tx.inputs|
    ensures var r := SpendAll(s, tx, n);
      && r.watches == s.watches && r.loaded == s.loaded && r.hits == s.hits
      && (o in r.utxos <==> o in s.utxos && o !in tx.inputs[..n])
      && (o in r.utxos ==> r.utxos[o] == s.utxos[o])
      && ((a, o) in r.db <==> (a, o) in s.db)
      && ((a, o) in s.db ==>
            r.db[(a, o)] == if o in tx.inputs[..n] && o in s.utxos && s.utxos[o] == a
                            then s.db[(a, o)].(spent := true, spentBy := Some(tx.txid)) else s.db[(a, o)])
  {
    if n > 0 {
      SpentAt(s, tx, n - 1, a, o);
      assert tx.inputs[..n] == tx.inputs[..n - 1] + [tx.inputs[n - 1]];
    }
  }

  function SpentBelow(s: State, tx: Seen, n: nat): set<Outpoint>
    requires n <= |tx.inputs|
  {
    set o | o in tx.inputs[..n] && o in s.utxos
  }

  lemma OneMoreSpent(s: State, tx: Seen, n: nat)
    requires 0 < n <= |tx.inputs|
    ensures var o := tx.inputs[n - 1];
      |SpentBelow(s, tx, n)| ==
      |SpentBelow(s, tx, n - 1)| + if o in s.utxos && o !in tx.inputs[..n - 1] then 1 else 0
  {
    var o := tx.inputs[n - 1];
    assert tx.inputs[..n] == tx.inputs[..n - 1] + [o];
    assert SpentBelow(s, tx, n) == SpentBelow(s, tx, n - 1) + if o in s.utxos then {o} else {};
  }

  lemma {:induction false} SpentCount(s: State, tx: Seen, n: nat)
    requires n <= |tx.inputs|
    ensures SpendAll(s, tx, n).spends == s.spends + |SpentBelow(s, tx, n)|
  {
    hide SpentBelow, MarkSpent;
    if n > 0 {
      SpentCount(s, tx, n - 1);
      SpentAt(s, tx, n - 1, "", tx.inputs[n - 1]);
      OneMoreSpent(s, tx, n);
    } else {
      NoneSpent(s, tx);
    }
  }

  lemma NoneSpent(s: State, tx: Seen)
    ensures SpentBelow(s, tx, 0) == {}
  {
  }

  lemma CheckedAt(s: State, tx: Seen, now: int, a: string, o: Outpoint)
    ensures var s' := Checked(s, Some(tx), now);
      && s'.watches == s.watches && s'.loaded == s.loaded
      && (o in s'.utxos <==> o !in tx.inputs && OwnerOf(s, tx, o).Some?)
      && (o in s'.utxos ==> OwnerOf(s, tx, o) == Some(s'.utxos[o]))
      && ((a, o) in s'.db <==> RecordOf(s, tx, now, a, o).Some?)
      && ((a, o) in s'.db ==>
            var hit := RecordOf(s, tx, now, a, o).value;
            s'.db[(a, o)] == if o in tx.inputs && OwnerOf(s, tx, o) == Some(a)
                             then hit.(spent := true, spentBy := Some(tx.txid)) else hit)
  {
    hide PayeeOf, ReceiveAll, SpendAll;
    ReceivedAt(s, tx, |tx.outputs|, now, a, o);
    SpentAt(ReceiveAll(s, tx, |tx.outputs|, now), tx, |tx.inputs|, a, o);
    assert tx.inputs[..|tx.inputs|] == tx.inputs;
  }

  lemma CheckedCounts(s: State, tx: Seen, now: int)
    ensures Checked(s, Some(tx), now).hits == s.hits + |PaidBelow(s, tx, |tx.outputs|)|
    ensures Checked(s, Some(tx), now).spends ==
            s.spends + |set o | o in tx.inputs && OwnerOf(s, tx, o).Some?|
  {
    hide PayeeOf, ReceiveAll, SpendAll;
    var r := ReceiveAll(s, tx, |tx.outputs|, now);
    ReceivedCount(s, tx, |tx.outputs|, now);
    SpentCount(r, tx, |tx.inputs|);
    forall o: Outpoint
      ensures o in r.utxos <==> OwnerOf(s, tx, o).Some?
    {
      ReceivedAt(s, tx, |tx.outputs|, now, "", o);
    }
    ReceivedAt(s, tx, |tx.outputs|, now, "", Outpoint(tx.txid, 0));
    SpentAt(r, tx, |tx.inputs|, "", Outpoint(tx.txid, 0));
    assert (set o | o in tx.inputs && OwnerOf(s, tx, o).Some?) == SpentBelow(r, tx, |tx.inputs|);
    if |s.watches| == 0 && |s.utxos| == 0 {
      assert s.watches == map[] && s.utxos == map[];
      assert PaidBelow(s, tx, |tx.outputs|) == {};
      assert SpentBelow(r, tx, |tx.inputs|) == {};
    }
  }

  /** CheckTx has this effect whenever the bytes decode, also when it returns at once because nothing is watched. */
  lemma CheckedExactly(s: State, tx: Seen, now: int)
    ensures Effect(s, Checked(s, Some(tx), now), tx, now)
  {
    hide PayeeOf, Checked, OwnerOf, RecordOf;
    var s' := Checked(s, Some(tx), now);
    CheckedCounts(s, tx, now);
    CheckedAt(s, tx, now, "", Outpoint(tx.txid, 0));
    forall o
      ensures o in s'.utxos <==> o !in tx.inputs && OwnerOf(s, tx, o).Some?
      ensures o in s'.utxos ==> OwnerOf(s, tx, o) == Some(s'.utxos[o])
    {
      CheckedAt(s, tx, now, "", o);
    }
    forall a, o
      ensures (a, o) in s'.db <==> RecordOf(s, tx, now, a, o).Some?
      ensures (a, o) in s'.db ==>
        var hit := RecordOf(s, tx, now, a, o).value;
        s'.db[(a, o)] == if o in tx.inputs && OwnerOf(s, tx, o) == Some(a)
                         then hit.(spent := true, spentBy := Some(tx.txid)) else hit
    {
      CheckedAt(s, tx, now, a, o);
    }
  }

  class Watcher {
    const decode: AddressDecoder
    var watches: map<Hash160, string>
    var utxos: map<Outpoint, string>
    var db: Store
    var hits: nat
    var spends: nat
    var loaded: nat

    ghost function View(): State
      reads this
    {
      State(watches, utxos, db, hits, spends, loaded)
    }

    /** NewWatcher over a database, with loadUTXOs. */
    constructor (decode: AddressDecoder, db: Store)
      ensures this.decode == decode
      ensures forall s: State :: s.db == db ==> Restarted(s, View())
    {
      this.decode := decode;
      watches, utxos, hits, spends, loaded := map[], map[], 0, 0, 0;
      this.db := db;
      new;
      utxos, loaded := LoadUTXOs(db);
    }

    static method LoadUTXOs(db: Store) returns (utxos: map<Outpoint, string>, loaded: nat)
      ensures Rebuilds(db, utxos) && loaded == |Unspent(db)|
    {
      utxos, loaded := map[], 0;
      var rest: set<(string, Outpoint)> := db.Keys;
      ghost var counted: set<(string, Outpoint)> := {};
      while rest != {}
        invariant rest <= db.Keys && loaded == |counted|
        invariant counted == Unspent(db) - rest
        invariant forall k :: k in counted ==> db[k].outpoint in utxos
        invariant forall o :: o in utxos ==> exists k :: k in counted && Names(db[k], o, utxos[o])
        decreases rest
      {
        var k :| k in rest;
        rest := rest - {k};
        if !db[k].spent {
          ghost var before, earlier := utxos, counted;
          counted := counted + {k};
          utxos := utxos[db[k].outpoint := db[k].address];
          loaded := loaded + 1;
          assert Names(db[k], db[k].outpoint, db[k].address);
          forall o | o in utxos
            ensures exists k :: k in counted && Names(db[k], o, utxos[o])
          {
            if o != db[k].outpoint {
              var j :| j in earlier && Names(db[j], o, before[o]);
              assert j in counted;
            }
          }
        }
      }
    }

    method Add(address: string) returns (ok: bool)
      modifies this`watches
      ensures ok <==> decode(address).Some?
      ensures watches == if ok then old(watches)[decode(address).value := address] else old(watches)
      ensures View() == Added(decode, old(View()), address)
    {
      var pkh := decode(address);
      if pkh.None? {
        return false;
      }
      watches := watches[pkh.value := address];
      return true;
    }

    method Remove(address: string)
      modifies this`watches
      ensures forall h :: h in watches <==> h in old(watches) && decode(address) != Some(h)
      ensures forall h :: h in watches ==> watches[h] == old(watches)[h]
      ensures View() == Removed(decode, old(View()), address)
    {
      var pkh := decode(address);
      if pkh.Some? {
        watches := watches - {pkh.value};
      }
    }

    method CheckTx(tx: Option<Seen>, now: int)
      modifies this`utxos, this`db, this`hits, this`spends
      ensures tx.Some? ==> Effect(old(View()), View(), tx.value, now)
      ensures tx.None? ==> View() == old(View())
      ensures View() == Checked(old(View()), tx, now)
    {
      hide PayeeOf, Effect, MarkSpent;
      if tx.Some? {
        CheckedExactly(View(), tx.value, now);
      }
      if (|watches| == 0 && |utxos| == 0) || tx.None? {
        return;
      }
      var t := tx.value;
      for vout := 0 to |t.outputs|
        invariant View() == ReceiveAll(old(View()), t, vout, now)
      {
        var out := t.outputs[vout];
        var h160 := PayeeOf(out.pkScript);
        if h160.Some? && h160.value in watches {
          var addr, o := watches[h160.value], Outpoint(t.txid, vout);
          hits := hits + 1;
          utxos := utxos[o := addr];
          Persist(Hit(addr, o, out.value, out.pkScript, now, false, None));
        }
      }
      ghost var received := View();
      for i := 0 to |t.inputs|
        invariant View() == SpendAll(received, t, i)
      {
        var o := t.inputs[i];
        if o in utxos {
          var addr := utxos[o];
          spends := spends + 1;
          utxos := utxos - {o};
          PersistSpend(addr, o, t.txid);
        }
      }
    }

    method Persist(hit: Hit)
      modifies this`db
      ensures db == old(db)[(hit.address, hit.outpoint) := hit]
    {
      db := db[(hit.address, hit.outpoint) := hit];
    }

    method PersistSpend(addr: string, o: Outpoint, spender: Txid)
      modifies this`db
      ensures db == if (addr, o) !in old(db) then old(db)
        else old(db)[(addr, o) := old(db)[(addr, o)].(spent := true, spentBy := Some(spender))]
      ensures db == MarkSpent(old(db), (addr, o), spender)
    {
      if (addr, o) in db {
        var orig := db[(addr, o)];
        db := db[(addr, o) := orig.(spent := true, spentBy := Some(spender))];
      }
    }
  }

  function Added(decode: AddressDecoder, s: State, address: string): State {
    var pkh := decode(address);
    if pkh.None? then s else s.(watches := s.watches[pkh.value := address])
  }

  function Removed(decode: AddressDecoder, s: State, address: string): State {
    var pkh := decode(address);
    if pkh.None? then s else s.(watches := s.watches - {pkh.value})
  }

  // ------------------------------------------------------------------ runs

  datatype Event = Add(address: string) | Remove(address: string) | Check(tx: Option<Seen>, now: int) | Restart

  ghost predicate Step(decode: AddressDecoder, s: State, ev: Event, s': State) {
    match ev
    case Add(a) => s' == Added(decode, s, a)
    case Remove(a) => s' == Removed(decode, s, a)
    case Check(tx, now) => s' == Checked(s, tx, now)
    case Restart => Restarted(s, s')
  }

  ghost predicate Trace(decode: AddressDecoder, states: seq<State>, events: seq<Event>) {
    && |states| == |events| + 1
    && states[0] == State(map[], map[], map[], 0, 0, 0)
    && forall i :: 0 <= i < |events| ==> Step(decode, states[i], events[i], states[i + 1])
  }

  /** The address an outpoint pays, for every outpoint; one spelling for each hash. */
  type Ledger = Outpoint -> Option<string>

  /** What a transaction id means does not change: its outputs pay what the ledger says, under the one spelling. */
  ghost predicate FollowsLedger(decode: AddressDecoder, spelling: Hash160 -> string, ledger: Ledger, ev: Event) {
    match ev
    case Add(a) => decode(a).Some? ==> spelling(decode(a).value) == a
    case Check(tx, now) =>
      tx.Some? ==> forall v :: 0 <= v < |tx.value.outputs| ==> PaysAs(spelling, ledger, tx.value, v)
    case _ => true
  }

  ghost predicate PaysAs(spelling: Hash160 -> string, ledger: Ledger, tx: Seen, v: nat)
    requires v < |tx.outputs|
  {
    var payee := PayeeOf(tx.outputs[v].pkScript);
    payee.Some? ==> ledger(Outpoint(tx.txid, v)) == Some(spelling(payee.value))
  }

  /** The unspent records and the map in memory are the same set. */
  ghost predicate InStep(ledger: Ledger, utxos: map<Outpoint, string>, db: Store) {
    && (forall k :: k in db ==> Own(ledger, k, db[k]))
    && (forall o :: o in utxos ==> Tracked(db, utxos[o], o))
    && (forall k :: k in db && !db[k].spent ==> k.1 in utxos)
  }

  predicate Own(ledger: Ledger, k: (string, Outpoint), hit: Hit) {
    hit.address == k.0 && hit.outpoint == k.1 && ledger(k.1) == Some(k.0)
  }

  predicate Tracked(db: Store, addr: string, o: Outpoint) {
    (addr, o) in db && !db[(addr, o)].spent
  }

  ghost predicate Consistent(spelling: Hash160 -> string, ledger: Ledger, s: State) {
    && (forall h :: h in s.watches ==> s.watches[h] == spelling(h))
    && InStep(ledger, s.utxos, s.db)
  }

  ghost predicate Balanced(s: State) {
    |s.utxos| + s.spends <= s.loaded + s.hits
  }

  lemma ReceiveKeeps(spelling: Hash160 -> string, ledger: Ledger, s: State, tx: Seen, v: nat, now: int)
    requires Consistent(spelling, ledger, s) && Balanced(s)
    requires v < |tx.outputs| && PaysAs(spelling, ledger, tx, v)
    ensures Consistent(spelling, ledger, Receive(s, Outpoint(tx.txid, v), tx.outputs[v], now))
    ensures Balanced(Receive(s, Outpoint(tx.txid, v), tx.outputs[v], now))
  {
    hide PayeeOf, InStep;
    var o, out := Outpoint(tx.txid, v), tx.outputs[v];
    var payee := PayeeOf(out.pkScript);
    if payee.Some? && payee.value in s.watches {
      var addr := s.watches[payee.value];
      ReceivedInStep(ledger, s.utxos, s.db, Hit(addr, o, out.value, out.pkScript, now, false, None));
      OneMoreAtMost(s.utxos, o, addr);
    }
  }

  lemma OneMoreAtMost(utxos: map<Outpoint, string>, o: Outpoint, addr: string)
    ensures |utxos[o := addr]| <= |utxos| + 1
  {
    assert utxos[o := addr].Keys == utxos.Keys + {o};
  }

  lemma ReceivedInStep(ledger: Ledger, utxos: map<Outpoint, string>, db: Store, hit: Hit)
    requires InStep(ledger, utxos, db) && !hit.spent && ledger(hit.outpoint) == Some(hit.address)
    ensures InStep(ledger, utxos[hit.outpoint := hit.address], db[(hit.address, hit.outpoint) := hit])
  {
    var utxos', db' := utxos[hit.outpoint := hit.address], db[(hit.address, hit.outpoint) := hit];
    forall o | o in utxos'
      ensures Tracked(db', utxos'[o], o)
    {
      assert o != hit.outpoint ==> Tracked(db, utxos[o], o);
    }
  }

  lemma SpentInStep(ledger: Ledger, utxos: map<Outpoint, string>, db: Store, o: Outpoint, spender: Txid)
    requires InStep(ledger, utxos, db) && o in utxos
    ensures InStep(ledger, utxos - {o}, MarkSpent(db, (utxos[o], o), spender))
  {
    var addr, utxos', db' := utxos[o], utxos - {o}, MarkSpent(db, (utxos[o], o), spender);
    assert Tracked(db, addr, o) && Own(ledger, (addr, o), db[(addr, o)]);
    forall p | p in utxos'
      ensures Tracked(db', utxos'[p], p)
    {
      assert Tracked(db, utxos[p], p);
    }
    forall k | k in db'
      ensures Own(ledger, k, db'[k]) && (!db'[k].spent ==> k.1 in utxos')
    {
      assert Own(ledger, k, db[k]);
    }
  }

  lemma SpendKeeps(spelling: Hash160 -> string, ledger: Ledger, s: State, o: Outpoint, spender: Txid)
    requires Consistent(spelling, ledger, s) && Balanced(s)
    ensures Consistent(spelling, ledger, Spend(s, o, spender)) && Balanced(Spend(s, o, spender))
  {
    hide InStep, MarkSpent;
    if o in s.utxos {
      SpentInStep(ledger, s.utxos, s.db, o, spender);
      assert s.utxos.Keys == (s.utxos - {o}).Keys + {o};
    }
  }

  lemma {:induction false} ReceiveAllKeeps(
      spelling: Hash160 -> string, ledger: Ledger, s: State, tx: Seen, n: nat, now: int)
    requires Consistent(spelling, ledger, s) && Balanced(s) && n <= |tx.outputs|
    requires forall v :: 0 <= v < |tx.outputs| ==> PaysAs(spelling, ledger, tx, v)
    ensures Consistent(spelling, ledger, ReceiveAll(s, tx, n, now)) && Balanced(ReceiveAll(s, tx, n, now))
  {
    hide Consistent, Balanced, PaysAs, Receive;
    if n > 0 {
      ReceiveAllKeeps(spelling, ledger, s, tx, n - 1, now);
      ReceiveKeeps(spelling, ledger, ReceiveAll(s, tx, n - 1, now), tx, n - 1, now);
    }
  }

  lemma {:induction false} SpendAllKeeps(spelling: Hash160 -> string, ledger: Ledger, s: State, tx: Seen, n: nat)
    requires Consistent(spelling, ledger, s) && Balanced(s) && n <= |tx.inputs|
    ensures Consistent(spelling, ledger, SpendAll(s, tx, n)) && Balanced(SpendAll(s, tx, n))
  {
    hide Consistent, Balanced, Spend;
    if n > 0 {
      SpendAllKeeps(spelling, ledger, s, tx, n - 1);
      SpendKeeps(spelling, ledger, SpendAll(s, tx, n - 1), tx.inputs[n - 1], tx.txid);
    }
  }

  /** Rebuilding from the records gives exactly the map in memory. */
  lemma RebuildIsMemory(ledger: Ledger, utxos: map<Outpoint, string>, db: Store, rebuilt: map<Outpoint, string>)
    requires InStep(ledger, utxos, db) && Rebuilds(db, rebuilt)
    ensures rebuilt == utxos
  {
    forall o | o in rebuilt
      ensures o in utxos && utxos[o] == rebuilt[o]
    {
      var k :| k in Unspent(db) && Names(db[k], o, rebuilt[o]);
      assert Own(ledger, k, db[k]) && Tracked(db, utxos[o], o);
      assert Own(ledger, (utxos[o], o), db[(utxos[o], o)]);
    }
    forall o | o in utxos
      ensures o in rebuilt
    {
      assert Tracked(db, utxos[o], o) && Own(ledger, (utxos[o], o), db[(utxos[o], o)]);
    }
  }

  lemma {:induction false} NoMoreThanRecords(utxos: map<Outpoint, string>, keys: set<(string, Outpoint)>)
    requires forall o :: o in utxos ==> (utxos[o], o) in keys
    ensures |utxos| <= |keys|
    decreases utxos.Keys
  {
    if utxos != map[] {
      var o :| o in utxos;
      var rest := utxos - {o};
      assert utxos.Keys == rest.Keys + {o};
      NoMoreThanRecords(rest, keys - {(utxos[o], o)});
    }
  }

  lemma StepKeeps(decode: AddressDecoder, spelling: Hash160 -> string, ledger: Ledger, s: State, ev: Event, s': State)
    requires Consistent(spelling, ledger, s) && Balanced(s)
    requires Step(decode, s, ev, s') && FollowsLedger(decode, spelling, ledger, ev)
    ensures Consistent(spelling, ledger, s') && Balanced(s')
  {
    hide InStep, PaysAs, Checked, Rebuilds, Unspent;
    match ev
    case Add(a) =>
    case Remove(a) =>
    case Check(tx, now) => CheckKeeps(spelling, ledger, s, tx, now);
    case Restart =>
      RebuildIsMemory(ledger, s.utxos, s.db, s'.utxos);
      MemoryWithinRecords(ledger, s.utxos, s.db);
  }

  lemma CheckKeeps(spelling: Hash160 -> string, ledger: Ledger, s: State, tx: Option<Seen>, now: int)
    requires Consistent(spelling, ledger, s) && Balanced(s)
    requires tx.Some? ==> forall v :: 0 <= v < |tx.value.outputs| ==> PaysAs(spelling, ledger, tx.value, v)
    ensures Consistent(spelling, ledger, Checked(s, tx, now)) && Balanced(Checked(s, tx, now))
  {
    hide Consistent, Balanced, PaysAs, ReceiveAll, SpendAll;
    if tx.Some? {
      ReceiveAllKeeps(spelling, ledger, s, tx.value, |tx.value.outputs|, now);
      SpendAllKeeps(spelling, ledger, ReceiveAll(s, tx.value, |tx.value.outputs|, now), tx.value, |tx.value.inputs|);
    }
  }

  lemma MemoryWithinRecords(ledger: Ledger, utxos: map<Outpoint, string>, db: Store)
    requires InStep(ledger, utxos, db)
    ensures |utxos| <= |Unspent(db)|
  {
    forall o | o in utxos
      ensures (utxos[o], o) in Unspent(db)
    {
      assert Tracked(db, utxos[o], o);
    }
    NoMoreThanRecords(utxos, Unspent(db));
  }

  /** At every point of a run a restart would change nothing, and spends never outnumber what was loaded and hit. */
  lemma {:induction false} RestartEquivalent(
      decode: AddressDecoder, spelling: Hash160 -> string, ledger: Ledger,
      states: seq<State>, events: seq<Event>, n: nat)
    requires Trace(decode, states, events) && n <= |events|
    requires forall i :: 0 <= i < |events| ==> FollowsLedger(decode, spelling, ledger, events[i])
    ensures Consistent(spelling, ledger, states[n])
    ensures forall rebuilt :: Rebuilds(states[n].db, rebuilt) ==> rebuilt == states[n].utxos
    ensures |states[n].utxos| + states[n].spends <= states[n].loaded + states[n].hits
  {
    if n > 0 {
      RestartEquivalent(decode, spelling, ledger, states, events, n - 1);
      StepKeeps(decode, spelling, ledger, states[n - 1], events[n - 1], states[n]);
    }
    forall rebuilt | Rebuilds(states[n].db, rebuilt)
      ensures rebuilt == states[n].utxos
    {
      RebuildIsMemory(ledger, states[n].utxos, states[n].db, rebuilt);
    }
  }

  /** With two spellings of one hash watched in turn, a spent output comes back when the watcher restarts. */
  lemma SecondSpellingResurrects(decode: AddressDecoder, a: string, b: string, tx: Seen, spender: Seen, now: int)
    requires a != b && decode(a) == decode(b) && decode(a).Some?
    requires |tx.outputs| == 1 && PayeeOf(tx.outputs[0].pkScript) == decode(a) && tx.inputs == []
    requires spender.outputs == [] && spender.inputs == [Outpoint(tx.txid, 0)]
    ensures var first := Checked(Added(decode, State(map[], map[], map[], 0, 0, 0), a), Some(tx), now);
      var s := Checked(Checked(Added(decode, first, b), Some(tx), now), Some(spender), now);
      s.utxos == map[] && Rebuilds(s.db, map[Outpoint(tx.txid, 0) := a])
  {
    hide Checked, PayeeOf;
    var h, o, start := decode(a).value, Outpoint(tx.txid, 0), State(map[], map[], map[], 0, 0, 0);
    var first := OnePaid(Added(decode, start, a), tx, h, now);
    var second := OnePaid(Added(decode, first, b), tx, h, now);
    OneSpent(second, spender, o);
    var third := Checked(second, Some(spender), now);
    assert second.utxos == map[o := b] && second.db.Keys == {(a, o), (b, o)};
    assert third.utxos == map[] && third.db[(b, o)].spent && third.db[(a, o)] == second.db[(a, o)];
    assert (a, o) in Unspent(third.db) && Names(third.db[(a, o)], o, a);
  }

  lemma OnePaid(s: State, tx: Seen, h: Hash160, now: int) returns (s': State)
    requires h in s.watches && |tx.outputs| == 1 && PayeeOf(tx.outputs[0].pkScript) == Some(h) && tx.inputs == []
    ensures s' == Checked(s, Some(tx), now)
    ensures var addr, o := s.watches[h], Outpoint(tx.txid, 0);
      && s'.watches == s.watches && s'.utxos == s.utxos[o := addr]
      && s'.db.Keys == s.db.Keys + {(addr, o)} && !s'.db[(addr, o)].spent && Names(s'.db[(addr, o)], o, addr)
      && forall k :: k in s.db && k != (addr, o) ==> s'.db[k] == s.db[k]
  {
    hide PayeeOf;
    s' := Checked(s, Some(tx), now);
    assert ReceiveAll(s, tx, 1, now) == Receive(ReceiveAll(s, tx, 0, now), Outpoint(tx.txid, 0), tx.outputs[0], now);
  }

  lemma OneSpent(s: State, tx: Seen, o: Outpoint)
    requires o in s.utxos && tx.outputs == [] && tx.inputs == [o]
    ensures forall now :: var s' := Checked(s, Some(tx), now);
      && s'.utxos == s.utxos - {o}
      && s'.db.Keys == s.db.Keys && (forall k :: k in s.db && k != (s.utxos[o], o) ==> s'.db[k] == s.db[k])
      && ((s.utxos[o], o) in s.db ==> s'.db[(s.utxos[o], o)].spent)
  {
    assert SpendAll(s, tx, 1) == Spend(SpendAll(s, tx, 0), o, tx.txid);
  }

  // ----------------------------------------- exactly one spelling per hash

  /** No hash has two spellings among these addresses. */
  ghost predicate OneSpelling(decode: AddressDecoder, addresses: set<string>) {
    forall a, b :: a in addresses && b in addresses && decode(a).Some? && decode(a) == decode(b) ==> a == b
  }

  ghost predicate WatchesOnly(events: seq<Event>, addresses: set<string>) {
    forall i :: 0 <= i < |events| && events[i].Add? ==> events[i].address in addresses
  }

  predicate Checks(events: seq<Event>, i: nat) {
    i < |events| && events[i].Check? && events[i].tx.Some?
  }

  ghost predicate TxidsDetermineOutputs(events: seq<Event>) {
    forall i: nat, j: nat ::
      Checks(events, i) && Checks(events, j) && events[i].tx.value.txid == events[j].tx.value.txid ==>
        events[i].tx.value.outputs == events[j].tx.value.outputs
  }

  /** A restart here would change nothing. */
  ghost predicate RebuildsExactly(s: State) {
    forall rebuilt :: Rebuilds(s.db, rebuilt) ==> rebuilt == s.utxos
  }

  /** Every run that watches only these addresses is restart-equivalent. */
  ghost predicate AlwaysRebuilds(decode: AddressDecoder, addresses: set<string>) {
    forall states, events ::
      Trace(decode, states, events) && WatchesOnly(events, addresses) && TxidsDetermineOutputs(events) ==>
        RebuildsExactly(states[|events|])
  }

  ghost function SpellingOf(decode: AddressDecoder, addresses: set<string>, h: Hash160): string {
    if exists a :: a in addresses && decode(a) == Some(h) then
      var a :| a in addresses && decode(a) == Some(h);
      a
    else ""
  }

  predicate Pays(events: seq<Event>, i: nat, o: Outpoint) {
    && Checks(events, i) && events[i].tx.value.txid == o.txid && o.vout < |events[i].tx.value.outputs|
    && PayeeOf(events[i].tx.value.outputs[o.vout].pkScript).Some?
  }

  ghost function LedgerOf(
      decode: AddressDecoder, addresses: set<string>, events: seq<Event>, o: Outpoint): Option<string> {
    if exists i :: Pays(events, i, o) then
      var i: nat :| Pays(events, i, o);
      Some(SpellingOf(decode, addresses, PayeeOf(events[i].tx.value.outputs[o.vout].pkScript).value))
    else None
  }

  lemma FollowsItsLedger(decode: AddressDecoder, addresses: set<string>, events: seq<Event>, i: nat)
    requires OneSpelling(decode, addresses) && WatchesOnly(events, addresses) && TxidsDetermineOutputs(events)
    requires i < |events|
    ensures FollowsLedger(
      decode, (h: Hash160) => SpellingOf(decode, addresses, h),
      (o: Outpoint) => LedgerOf(decode, addresses, events, o), events[i])
  {
    hide PayeeOf;
    var spelling := (h: Hash160) => SpellingOf(decode, addresses, h);
    var ledger := (o: Outpoint) => LedgerOf(decode, addresses, events, o);
    if Checks(events, i) {
      var tx := events[i].tx.value;
      forall v | 0 <= v < |tx.outputs|
        ensures PaysAs(spelling, ledger, tx, v)
      {
        if PayeeOf(tx.outputs[v].pkScript).Some? {
          assert Pays(events, i, Outpoint(tx.txid, v));
        }
      }
    }
  }

  lemma OneSpellingSuffices(
      decode: AddressDecoder, addresses: set<string>, states: seq<State>, events: seq<Event>)
    requires OneSpelling(decode, addresses) && Trace(decode, states, events)
    requires WatchesOnly(events, addresses) && TxidsDetermineOutputs(events)
    ensures RebuildsExactly(states[|events|])
  {
    var spelling := (h: Hash160) => SpellingOf(decode, addresses, h);
    var ledger := (o: Outpoint) => LedgerOf(decode, addresses, events, o);
    hide FollowsLedger, Trace;
    forall i | 0 <= i < |events|
      ensures FollowsLedger(decode, spelling, ledger, events[i])
    {
      FollowsItsLedger(decode, addresses, events, i);
    }
    RestartEquivalent(decode, spelling, ledger, states, events, |events|);
  }

  /** The script that pays h. */
  function PayTo(h: Hash160): (s: seq<byte>)
    ensures PayeeOf(s) == Some(h)
  {
    var s := [0x76, 0xa9, 0x14] + h + [0x88, 0xac];
    assert s[..3] == [0x76, 0xa9, 0x14] && s[3..23] == h;
    s
  }

  // Watching one spelling and then another, a run that a restart would change.
  lemma TwoSpellingsFail(decode: AddressDecoder, a: string, b: string) returns (states: seq<State>, events: seq<Event>)
    requires a != b && decode(a) == decode(b) && decode(a).Some?
    ensures Trace(decode, states, events) && WatchesOnly(events, {a, b}) && TxidsDetermineOutputs(events)
    ensures !RebuildsExactly(states[|events|])
  {
    hide PayeeOf, Checked, Rebuilds;
    var o: Outpoint := Outpoint("a", 0);
    var tx := Seen("a", [PaidOutput(0, PayTo(decode(a).value))], []);
    var spender := Seen("b", [], [o]);
    events := [Add(a), Check(Some(tx), 0), Add(b), Check(Some(tx), 0), Check(Some(spender), 0)];
    var s0 := State(map[], map[], map[], 0, 0, 0);
    var s1 := Added(decode, s0, a);
    var s2 := Checked(s1, Some(tx), 0);
    var s3 := Added(decode, s2, b);
    var s4 := Checked(s3, Some(tx), 0);
    var s5 := Checked(s4, Some(spender), 0);
    states := [s0, s1, s2, s3, s4, s5];
    SecondSpellingResurrects(decode, a, b, tx, spender, 0);
    assert Step(decode, s0, events[0], s1) && Step(decode, s1, events[1], s2) && Step(decode, s2, events[2], s3);
    assert Step(decode, s3, events[3], s4) && Step(decode, s4, events[4], s5);
    forall i | 0 <= i < |events|
      ensures Step(decode, states[i], events[i], states[i + 1])
    {
      assert i in {0, 1, 2, 3, 4};
    }
    assert o in map[o := a] && o !in s5.utxos;
  }

  /** Every run over these addresses in which txids determine outputs is restart-equivalent exactly when no two of the
      addresses spell one hash. */
  lemma RestartEquivalentExactly(decode: AddressDecoder, addresses: set<string>)
    ensures AlwaysRebuilds(decode, addresses) <==> OneSpelling(decode, addresses)
  {
    hide Step, RebuildsExactly, TxidsDetermineOutputs, WatchesOnly;
    if OneSpelling(decode, addresses) {
      forall states, events |
        Trace(decode, states, events) && WatchesOnly(events, addresses) && TxidsDetermineOutputs(events)
        ensures RebuildsExactly(states[|events|])
      {
        OneSpellingSuffices(decode, addresses, states, events);
      }
    } else {
      var a, b :| a in addresses && b in addresses && decode(a).Some? && decode(a) == decode(b) && a != b;
      var states, events := TwoSpellingsFail(decode, a, b);
      FewerWatched(events, {a, b}, addresses);
    }
  }

  lemma FewerWatched(events: seq<Event>, some: set<string>, addresses: set<string>)
    requires WatchesOnly(events, some) && some <= addresses
    ensures WatchesOnly(events, addresses)
  {
  }
}
