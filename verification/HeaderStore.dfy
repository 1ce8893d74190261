/** The header store: three indexes, a tip and a work total (internal/headers/store.go). */
module HeaderStore {
  import opened Numbers
  import opened Wrappers
  import opened Headers
  import opened Pow

  /** The LevelDB contents, one map per key prefix. */
  datatype Db = Db(
    headers: map<uint32, Header>,
    heights: map<Hash, uint32>,
    merkle: map<uint32, Hash>,
    tip: Option<uint32>,
    work: Option<nat>)

  const EMPTY_DB := Db(map[], map[], map[], None, None)

  /** The hash in use, whether the test-only proof-of-work switch is off, and the hardcoded genesis. */
  datatype Config = Config(hash: HashFn, skipPow: bool, genesis: Header)

  /** The database together with what the Store object holds in memory. */
  datatype State = State(db: Db, tip: uint32, work: int)

  /** The three puts made for one header. */
  function PutHeader(cfg: Config, db: Db, height: uint32, hdr: Header): Db {
    db.(headers := db.headers[height := hdr],
        heights := db.heights[cfg.hash(hdr) := height],
        merkle := db.merkle[height := hdr.merkleRoot])
  }

  /** The three deletes made for one header. */
  function DeleteHeader(cfg: Config, db: Db, height: uint32, hdr: Header): Db {
    db.(headers := db.headers - {height},
        heights := db.heights - {cfg.hash(hdr)},
        merkle := db.merkle - {height})
  }

  // --------------------------------------------------- the three operations

  /** NewStore */
  function Opened(cfg: Config, db: Db): State {
    var ready := if db.tip.None? then PutHeader(cfg, db, 0, cfg.genesis).(tip := Some(0)) else db;
    State(ready, ready.tip.value, if db.work.Some? then db.work.value else 0)
  }

  /** Where the batch loop of AddHeaders stands: the pending writes, their work, the hash and height to follow on
      from. */
  datatype Cursor = Cursor(db: Db, work: nat, prev: Hash, height: uint32)

  function AddOne(cfg: Config, c: Cursor, hdr: Header): Cursor {
    Cursor(PutHeader(cfg, c.db, c.height, hdr), c.work + Work(hdr), cfg.hash(hdr), Next(c.height))
  }

  function AddAll(cfg: Config, c: Cursor, headers: seq<Header>): Cursor {
    if headers == [] then c else AddOne(cfg, AddAll(cfg, c, headers[..|headers| - 1]), headers[|headers| - 1])
  }

  lemma AddAllStep(cfg: Config, c: Cursor, headers: seq<Header>, i: nat)
    requires i < |headers|
    ensures AddAll(cfg, c, headers[..i + 1]) == AddOne(cfg, AddAll(cfg, c, headers[..i]), headers[i])
  {
    assert headers[..i + 1][..i] == headers[..i];
  }

  function StartCursor(cfg: Config, s: State, start: uint32): Cursor
    requires s.tip in s.db.headers
  {
    Cursor(s.db, 0, cfg.hash(s.db.headers[s.tip]), start)
  }

  /** The write that ends AddHeaders. */
  function Commit(s: State, c: Cursor): State {
    var newTip := Previous(c.height);
    State(c.db.(tip := Some(newTip), work := Some(Abs(s.work + c.work))), newTip, s.work + c.work)
  }

  /** When AddHeaders returns without an error. */
  ghost predicate Accepts(cfg: Config, s: State, start: uint32, headers: seq<Header>) {
    && start == Next(s.tip)
    && (headers == [] ||
        (s.tip in s.db.headers && Acceptable(cfg.hash, cfg.skipPow, cfg.hash(s.db.headers[s.tip]), headers)))
  }

  /** The state AddHeaders leaves: all of the batch or none of it. */
  ghost function Added(cfg: Config, s: State, start: uint32, headers: seq<Header>): State {
    if headers != [] && Accepts(cfg, s, start, headers)
    then Commit(s, AddAll(cfg, StartCursor(cfg, s, start), headers))
    else s
  }

  ghost predicate AllStored(db: Db, from: uint32, to: uint32) {
    forall h :: from < h <= to ==> h in db.headers
  }

  /** The pending deletes and their work after the heights above h have been visited. */
  function DropFrom(cfg: Config, s: State, h: uint32): (Db, nat)
    requires h <= s.tip && AllStored(s.db, h, s.tip)
    decreases s.tip - h
  {
    if h == s.tip then (s.db, 0)
    else
      var (db, work) := DropFrom(cfg, s, h + 1);
      (DeleteHeader(cfg, db, h + 1, s.db.headers[h + 1]), work + Work(s.db.headers[h + 1]))
  }

  /** The state Rollback leaves. */
  ghost function RolledBack(cfg: Config, s: State, to: uint32): State {
    if to < s.tip && AllStored(s.db, to, s.tip) then
      var (db, work) := DropFrom(cfg, s, to);
      State(db.(tip := Some(to), work := Some(Abs(s.work - work))), to, s.work - work)
    else s
  }

  /** The batch loop of AddHeaders: it reads the batch and prepares the writes, or stops at the first bad header. */
  method BuildBatch(cfg: Config, db: Db, first: Hash, start: uint32, headers: seq<Header>)
      returns (r: Result<Cursor, HeaderError>)
    ensures r.Success? <==> Acceptable(cfg.hash, cfg.skipPow, first, headers)
    ensures r.Success? ==> r.value == AddAll(cfg, Cursor(db, 0, first, start), headers)
    ensures r.Failure? ==> FirstFault(cfg.hash, cfg.skipPow, first, headers, r.error)
  {
    var tipHash := first;
    var pending, batchWork: nat, height: uint32 := db, 0, start;
    for i := 0 to |headers|
      invariant Acceptable(cfg.hash, cfg.skipPow, first, headers[..i])
      invariant tipHash == PrevOf(cfg.hash, first, headers, i)
      invariant Cursor(pending, batchWork, tipHash, height) == AddAll(cfg, Cursor(db, 0, first, start), headers[..i])
    {
      var hdr := headers[i];
      if hdr.prev != tipHash {
        FaultRejects(cfg.hash, cfg.skipPow, first, headers, PrevMismatch(i));
        return Failure(PrevMismatch(i));
      }
      if !cfg.skipPow {
        var ok := ValidatePow(cfg.hash, hdr);
        if !ok {
          FaultRejects(cfg.hash, cfg.skipPow, first, headers, BadPow(i));
          return Failure(BadPow(i));
        }
      }
      AcceptableStep(cfg.hash, cfg.skipPow, first, headers, i);
      AddAllStep(cfg, Cursor(db, 0, first, start), headers, i);
      pending := PutHeader(cfg, pending, height, hdr);
      batchWork := batchWork + Work(hdr);
      tipHash := cfg.hash(hdr);
      height := Next(height);
    }
    assert headers[..|headers|] == headers;
    return Success(Cursor(pending, batchWork, tipHash, height));
  }

  function IndexedHeight(db: Db, x: Hash): Option<uint32> {
    if x in db.heights then Some(db.heights[x]) else None
  }

  predicate RootIsStored(db: Db, root: Hash, height: uint32) {
    height in db.merkle && db.merkle[height] == root
  }

  class Store {
    const cfg: Config
    var db: Db
    var tip: uint32
    var work: int

    function Snapshot(): State
      reads this
    {
      State(db, tip, work)
    }

    constructor (cfg: Config, db: Db)
      ensures this.cfg == cfg && Snapshot() == Opened(cfg, db)
    {
      this.cfg := cfg;
      var ready := db;
      if db.tip.None? {
        ready := PutHeader(cfg, db, 0, cfg.genesis).(tip := Some(0));
      }
      this.db := ready;
      this.tip := ready.tip.value;
      this.work := if db.work.Some? then db.work.value else 0;
    }

    method AddHeaders(start: uint32, headers: seq<Header>) returns (r: Result<(), HeaderError>)
      modifies this
      ensures r.Success? <==>
        && start == (old(tip) + 1) % 0x1_0000_0000
        && (headers != [] ==>
              old(tip) in old(db).headers && headers[0].prev == cfg.hash(old(db).headers[old(tip)]))
        && (forall i :: 0 < i < |headers| ==> headers[i].prev == cfg.hash(headers[i - 1]))
        && (!cfg.skipPow ==> forall hdr :: hdr in headers ==>
              0 < CompactToBig(hdr.bits) && FromLittleEndian(cfg.hash(hdr)) <= CompactToBig(hdr.bits))
      ensures r.Success? <==> Accepts(cfg, old(Snapshot()), start, headers)
      ensures Snapshot() == Added(cfg, old(Snapshot()), start, headers)
      ensures r.Failure? && start != Next(old(tip)) ==> r.error == WrongStart
      ensures r.Failure? && start == Next(old(tip)) && old(tip) !in old(db).headers ==> r.error == TipMissing
      ensures r.Failure? && start == Next(old(tip)) && old(tip) in old(db).headers ==>
        FirstFault(cfg.hash, cfg.skipPow, cfg.hash(old(db).headers[old(tip)]), headers, r.error)
    {
      hide AddAll, CompactToBig, FirstFault;
      if start != Next(tip) {
        return Failure(WrongStart);
      }
      if |headers| == 0 {
        return Success(());
      }
      if tip !in db.headers {
        return Failure(TipMissing);
      }
      AcceptableMeans(cfg.hash, cfg.skipPow, cfg.hash(db.headers[tip]), headers);
      var batch := BuildBatch(cfg, db, cfg.hash(db.headers[tip]), start, headers);
      if batch.Failure? {
          return Failure(batch.error);
      }
      var newTip := Previous(batch.value.height);
      var newWork := work + batch.value.work;
      db := batch.value.db.(tip := Some(newTip), work := Some(Abs(newWork)));
      tip := newTip;
      work := newWork;
      return Success(());
    }

    method Rollback(to: uint32) returns (r: Result<(), HeaderError>)
      modifies this
      ensures r.Success? <==> to < old(tip) && AllStored(old(db), to, old(tip))
      ensures Snapshot() == RolledBack(cfg, old(Snapshot()), to)
      ensures r.Failure? ==> r.error == if to >= old(tip) then RollbackTooHigh else HeaderMissing
    {
      if to >= tip {
        return Failure(RollbackTooHigh);
      }
      ghost var was := Snapshot();
      var pending, rollbackWork, h := db, 0, tip;
      while h > to
        invariant to <= h <= tip && Snapshot() == was
        invariant AllStored(db, h, tip)
        invariant (pending, rollbackWork) == DropFrom(cfg, was, h)
      {
        if h !in db.headers {
          return Failure(HeaderMissing);
        }
        var hdr := db.headers[h];
        rollbackWork := rollbackWork + Work(hdr);
        pending := DeleteHeader(cfg, pending, h, hdr);
        h := h - 1;
      }
      var newWork := work - rollbackWork;
      db := pending.(tip := Some(to), work := Some(Abs(newWork)));
      tip := to;
      work := newWork;
      return Success(());
    }

    /** HeightForHash: the height the hash index records, if any. */
    method HeightForHash(x: Hash) returns (r: Option<uint32>)
      ensures r == IndexedHeight(db, x)
    {
      r := if x in db.heights then Some(db.heights[x]) else None;
    }

    /** IsValidRootForHeight: the merkle index at that height holds this root. */
    method IsValidRootForHeight(root: Hash, height: uint32) returns (ok: bool)
      ensures ok <==> RootIsStored(db, root, height)
    {
      ok := height in db.merkle && db.merkle[height] == root;
    }
  }
}
