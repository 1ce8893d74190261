/** Runs of the header store: its invariant, what undoes what, and where uint32 heights end it. */
module HeaderRuns {
  import opened Numbers
  import opened Wrappers
  import opened Headers
  import opened HeaderStore
  import opened HeaderChain

  // -------------------------------------------------------------- Rollback

  lemma DeleteEntries(headers: map<uint32, Header>, merkle: map<uint32, Hash>, c: seq<Header>)
    requires HeaderIndex(headers, c) && MerkleIndex(merkle, c) && 0 < |c| <= TWO_TO_THE_32
    ensures HeaderIndex(headers - {|c| - 1}, c[..|c| - 1])
    ensures MerkleIndex(merkle - {|c| - 1}, c[..|c| - 1])
  {
  }

  lemma DeleteHash(hash: HashFn, m: map<Hash, uint32>, c: seq<Header>)
    requires HashIndex(hash, m, c) && 0 < |c| <= TWO_TO_THE_32
    ensures HashIndex(hash, m - {hash(c[|c| - 1])}, c[..|c| - 1])
  {
    var n := |c| - 1;
    var x := hash(c[n]);
    assert m[x] == n;
    forall h: uint32 | h < n
      ensures hash(c[..n][h]) in m - {x} && (m - {x})[hash(c[..n][h])] == h
    {
      assert c[..n][h] == c[h] && m[hash(c[h])] == h;
    }
  }

  lemma DeleteShrinksIndexes(cfg: Config, db: Db, c: seq<Header>, n: uint32)
    requires Indexes(cfg, db, c) && |c| == n + 1
    ensures Indexes(cfg, DeleteHeader(cfg, db, n, c[n]), c[..n])
  {
    DeleteEntries(db.headers, db.merkle, c);
    DeleteHash(cfg.hash, db.heights, c);
  }

  lemma AllHeadersStored(db: Db, c: seq<Header>, from: uint32, to: uint32)
    requires HeaderIndex(db.headers, c) && to < |c|
    ensures AllStored(db, from, to)
  {
  }

  // The deletes for the heights above h leave the indexes of the first h + 1
  // headers.
  lemma {:induction false} DropIndexes(cfg: Config, s: State, c: seq<Header>, h: uint32)
    requires Indexes(cfg, s.db, c) && s.tip == |c| - 1 && h <= s.tip
    ensures AllStored(s.db, h, s.tip)
    ensures Indexes(cfg, DropFrom(cfg, s, h).0, c[..h + 1])
    decreases s.tip - h
  {
    hide MerkleIndex, HashIndex, DeleteHeader, Work;
    AllHeadersStored(s.db, c, h, s.tip);
    if h == s.tip {
      assert c[..h + 1] == c;
    } else {
      DropIndexes(cfg, s, c, h + 1);
      var d := c[..h + 2];
      assert d[..h + 1] == c[..h + 1] && d[h + 1] == s.db.headers[h + 1];
      DeleteShrinksIndexes(cfg, DropFrom(cfg, s, h + 1).0, d, h + 1);
    }
  }

  /** The work of those deletes is the work of the headers they remove. */
  lemma {:induction false} DropWork(cfg: Config, s: State, c: seq<Header>, h: uint32)
    requires HeaderIndex(s.db.headers, c) && s.tip == |c| - 1 && h <= s.tip
    requires AllStored(s.db, h, s.tip)
    ensures DropFrom(cfg, s, h).1 == TotalWork(c[h + 1..])
    decreases s.tip - h
  {
    hide Work, TotalWork;
    if h < s.tip {
      DropWork(cfg, s, c, h + 1);
      assert c[h + 1..] == [c[h + 1]] + c[h + 2..];
      TotalWorkConcat([c[h + 1]], c[h + 2..]);
      SingleWork(c[h + 1]);
    } else {
      NoWork();
      assert c[h + 1..] == [];
    }
  }

  lemma NoWork()
    ensures TotalWork([]) == 0
  {
  }

  lemma SingleWork(hdr: Header)
    ensures TotalWork([hdr]) == Work(hdr)
  {
    assert [hdr][..0] == [];
  }

  lemma ChainPrefix(cfg: Config, c: seq<Header>, n: nat)
    requires ValidChain(cfg, c) && 0 < n <= |c|
    ensures ValidChain(cfg, c[..n])
  {
    assert c[..n][1..] == c[1..][..n - 1];
    AcceptablePrefix(cfg.hash, cfg.skipPow, cfg.hash(cfg.genesis), c[1..], n - 1);
  }

  /** On a store that describes c, Rollback accepts exactly the heights below the tip, and then describes the shorter
      chain. */
  lemma RollbackKeepsChain(cfg: Config, s: State, c: seq<Header>, to: uint32)
    requires Represents(cfg, s, c)
    ensures to < s.tip ==> AllStored(s.db, to, s.tip)
    ensures Represents(cfg, RolledBack(cfg, s, to), if to < s.tip then c[..to + 1] else c)
  {
    hide MerkleIndex, HashIndex, ValidChain, TotalWork, DropFrom;
    if to < s.tip {
      DropIndexes(cfg, s, c, to);
      DropWork(cfg, s, c, to);
      ChainPrefix(cfg, c, to + 1);
      SplitWork(c, to);
      SameIndexes(cfg, DropFrom(cfg, s, to).0, RolledBack(cfg, s, to).db, c[..to + 1]);
    }
  }

  lemma SplitWork(c: seq<Header>, to: uint32)
    requires to < |c|
    ensures TotalWork(c[1..]) == TotalWork(c[..to + 1][1..]) + TotalWork(c[to + 1..])
  {
    ExtensionWork(c[..to + 1], c[to + 1..]);
    assert c[..to + 1] + c[to + 1..] == c;
  }

  // ------------------------------------------------------------------ Open

  /** An empty database opens as the one-header chain of genesis. */
  lemma FirstOpen(cfg: Config)
    ensures Represents(cfg, Opened(cfg, EMPTY_DB), [cfg.genesis])
  {
    assert [cfg.genesis][1..] == [];
  }

  /** Closing and reopening restores the in-memory tip and work exactly. */
  lemma ReopenRestores(cfg: Config, s: State, c: seq<Header>)
    requires Represents(cfg, s, c)
    ensures Opened(cfg, s.db) == s
  {
    if |c| == 1 {
      assert c[1..] == [];
    }
  }

  // ------------------------------------------------------------------ runs

  datatype Op = Add(start: uint32, batch: seq<Header>) | Rollback(to: uint32) | Reopen

  ghost function Step(cfg: Config, s: State, op: Op): State {
    match op
    case Add(start, batch) => Added(cfg, s, start, batch)
    case Rollback(to) => RolledBack(cfg, s, to)
    case Reopen => Opened(cfg, s.db)
  }

  /** The state after a run that starts from an empty database. */
  ghost function Run(cfg: Config, ops: seq<Op>): State {
    if ops == [] then Opened(cfg, EMPTY_DB) else Step(cfg, Run(cfg, ops[..|ops| - 1]), ops[|ops| - 1])
  }

  /** No batch of the run carries the tip past the largest uint32 height. */
  ghost predicate HeightsFit(cfg: Config, ops: seq<Op>) {
    ops == [] ||
    (var init, op := ops[..|ops| - 1], ops[|ops| - 1];
     HeightsFit(cfg, init) && (op.Add? ==> Run(cfg, init).tip + |op.batch| < TWO_TO_THE_32))
  }

  ghost predicate HeadersWithin(ops: seq<Op>, universe: set<Header>) {
    forall i :: 0 <= i < |ops| && ops[i].Add? ==> Within(ops[i].batch, universe)
  }

  /** After any run of adds, rollbacks and reopens, accepted or refused, the store describes a valid chain. */
  lemma {:induction false} RunKeepsChain(cfg: Config, universe: set<Header>, ops: seq<Op>) returns (c: seq<Header>)
    requires CollisionFree(cfg, universe) && cfg.genesis in universe
    requires HeadersWithin(ops, universe) && HeightsFit(cfg, ops)
    ensures Represents(cfg, Run(cfg, ops), c)
    ensures Within(c, universe) && DistinctHashes(cfg, c)
  {
    if ops == [] {
      FirstOpen(cfg);
      c := [cfg.genesis];
    } else {
      var init, op := ops[..|ops| - 1], ops[|ops| - 1];
      c := RunKeepsChain(cfg, universe, init);
      c := StepKeepsChain(cfg, universe, Run(cfg, init), c, op);
    }
    ChainHasDistinctHashes(cfg, universe, c);
  }

  lemma StepKeepsChain(cfg: Config, universe: set<Header>, s: State, c: seq<Header>, op: Op) returns (d: seq<Header>)
    requires Represents(cfg, s, c) && Within(c, universe)
    requires CollisionFree(cfg, universe)
    requires op.Add? ==> s.tip + |op.batch| < TWO_TO_THE_32 && Within(op.batch, universe)
    ensures Represents(cfg, Step(cfg, s, op), d) && Within(d, universe)
  {
    hide Indexes, ValidChain, Added, RolledBack, Opened, Accepts, TotalWork, CollisionFree;
    match op
    case Add(start, batch) =>
      AddKeepsChain(cfg, universe, s, c, start, batch);
      d := if Accepts(cfg, s, start, batch) then c + batch else c;
    case Rollback(to) =>
      RollbackKeepsChain(cfg, s, c, to);
      d := if to < s.tip then c[..to + 1] else c;
    case Reopen =>
      ReopenRestores(cfg, s, c);
      d := c;
  }

  // -------------------------------------------------- what readers are told

  /** The two readers answer for the chain c up to the tip, and for nothing else. */
  ghost predicate ReadersTell(cfg: Config, s: State, c: seq<Header>) {
    && |c| == s.tip + 1
    && (forall root: Hash, height: uint32 ::
          RootIsStored(s.db, root, height) <==> height <= s.tip && c[height].merkleRoot == root)
    && (forall x: Hash, height: uint32 ::
          IndexedHeight(s.db, x) == Some(height) <==> height <= s.tip && cfg.hash(c[height]) == x)
  }

  lemma ReadersTellChain(cfg: Config, s: State, c: seq<Header>)
    requires Represents(cfg, s, c)
    ensures ReadersTell(cfg, s, c)
  {
    hide ValidChain, Work, TotalWork;
    forall x: Hash, height: uint32
      ensures IndexedHeight(s.db, x) == Some(height) <==> height <= s.tip && cfg.hash(c[height]) == x
    {
      if height <= s.tip {
        assert s.db.heights[cfg.hash(c[height])] == height;
      }
    }
  }

  /** After any run a merkle root is confirmed exactly at the height of the chain's header that has it, and a hash is
      found exactly at the height of the header it belongs to. */
  lemma ReadersTellRun(cfg: Config, universe: set<Header>, ops: seq<Op>) returns (c: seq<Header>)
    requires CollisionFree(cfg, universe) && cfg.genesis in universe
    requires HeadersWithin(ops, universe) && HeightsFit(cfg, ops)
    ensures ValidChain(cfg, c) && ReadersTell(cfg, Run(cfg, ops), c)
  {
    c := RunKeepsChain(cfg, universe, ops);
    ReadersTellChain(cfg, Run(cfg, ops), c);
  }

  // ----------------------------------------------------- what undoes what

  /** Two stores no reader can tell apart: an absent work key reads as zero. */
  ghost predicate SameStore(a: State, b: State) {
    && a.db.(work := None) == b.db.(work := None)
    && a.tip == b.tip && a.work == b.work
    && (a.db.work == b.db.work || (a.work == 0 && a.db.work in {None, Some(0)} && b.db.work in {None, Some(0)}))
  }

  lemma IndexesDetermined(cfg: Config, a: Db, b: Db, c: seq<Header>)
    requires Indexes(cfg, a, c) && Indexes(cfg, b, c)
    ensures a.headers == b.headers && a.merkle == b.merkle && a.heights == b.heights
  {
    HashIndexDetermined(cfg.hash, a.heights, b.heights, c);
    assert a.headers == b.headers;
    assert a.merkle == b.merkle;
  }

  lemma HashIndexDetermined(hash: HashFn, a: map<Hash, uint32>, b: map<Hash, uint32>, c: seq<Header>)
    requires HashIndex(hash, a, c) && HashIndex(hash, b, c)
    ensures a == b
  {
    forall x | x in a
      ensures x in b && a[x] == b[x]
    {
      assert hash(c[a[x]]) == x;
    }
    forall x | x in b
      ensures x in a
    {
      assert hash(c[b[x]]) == x;
    }
  }

  /** The chain determines the store. */
  lemma ChainDeterminesStore(cfg: Config, a: State, b: State, c: seq<Header>)
    requires Represents(cfg, a, c) && Represents(cfg, b, c)
    ensures SameStore(a, b)
    ensures |c| > 1 ==> a == b
  {
    IndexesDetermined(cfg, a.db, b.db, c);
    hide Indexes;
    if |c| == 1 {
      assert c[1..] == [];
    }
  }

  /** Appending an accepted batch and rolling back to the old tip restores the store. */
  lemma RollbackUndoesAdd(cfg: Config, universe: set<Header>, s: State, c: seq<Header>, start: uint32, b: seq<Header>)
    requires Represents(cfg, s, c)
    requires CollisionFree(cfg, universe) && Within(c + b, universe)
    requires |c| + |b| <= TWO_TO_THE_32
    requires b != [] && Accepts(cfg, s, start, b)
    ensures SameStore(RolledBack(cfg, Added(cfg, s, start, b), s.tip), s)
    ensures s.tip > 0 ==> RolledBack(cfg, Added(cfg, s, start, b), s.tip) == s
  {
    AddKeepsChain(cfg, universe, s, c, start, b);
    var s' := Added(cfg, s, start, b);
    RollbackKeepsChain(cfg, s', c + b, s.tip);
    assert (c + b)[..s.tip + 1] == c;
    ChainDeterminesStore(cfg, RolledBack(cfg, s', s.tip), s, c);
  }

  /** Rolling back and re-appending the removed headers is accepted and restores the store. */
  lemma AddUndoesRollback(cfg: Config, universe: set<Header>, s: State, c: seq<Header>, to: uint32)
    requires Represents(cfg, s, c)
    requires CollisionFree(cfg, universe) && Within(c, universe)
    requires to < s.tip
    ensures Accepts(cfg, RolledBack(cfg, s, to), to + 1, c[to + 1..])
    ensures Added(cfg, RolledBack(cfg, s, to), to + 1, c[to + 1..]) == s
  {
    var a, b := c[..to + 1], c[to + 1..];
    assert c == a + b && |a| == to + 1;
    var s' := RolledBack(cfg, s, to);
    assert Represents(cfg, s', a) by {
      RollbackKeepsChain(cfg, s, c, to);
    }
    ReAdd(cfg, universe, s', a, b, c);
    ChainDeterminesStore(cfg, Added(cfg, s', to + 1, b), s, c);
  }

  lemma ReAdd(cfg: Config, universe: set<Header>, s: State, c: seq<Header>, b: seq<Header>, d: seq<Header>)
    requires Represents(cfg, s, c) && ValidChain(cfg, d) && d == c + b
    requires CollisionFree(cfg, universe) && Within(d, universe)
    requires |d| <= TWO_TO_THE_32 && |c| < TWO_TO_THE_32
    ensures Accepts(cfg, s, |c|, b) && Represents(cfg, Added(cfg, s, |c|, b), d)
  {
    AddKeepsChain(cfg, universe, s, c, |c|, b);
  }
}
