/** What every run of the header store keeps, and what its operations undo. */
module HeaderChain {
  import opened Numbers
  import opened Wrappers
  import opened Headers
  import opened HeaderStore

  /** Genesis followed by headers that each name their predecessor and meet their own target. */
  ghost predicate ValidChain(cfg: Config, c: seq<Header>) {
    && |c| > 0
    && c[0] == cfg.genesis
    && Acceptable(cfg.hash, cfg.skipPow, cfg.hash(cfg.genesis), c[1..])
  }

  /** No two of these headers share a hash, and none hashes to what genesis names as its predecessor. */
  ghost predicate CollisionFree(cfg: Config, universe: set<Header>) {
    && (forall a, b :: a in universe && b in universe && cfg.hash(a) == cfg.hash(b) ==> a == b)
    && (forall a :: a in universe ==> cfg.hash(a) != cfg.genesis.prev)
  }

  ghost predicate Within(c: seq<Header>, universe: set<Header>) {
    forall i :: 0 <= i < |c| ==> c[i] in universe
  }

  ghost predicate DistinctHashes(cfg: Config, c: seq<Header>) {
    forall i, j :: 0 <= i < j < |c| ==> cfg.hash(c[i]) != cfg.hash(c[j])
  }

  ghost predicate HeaderIndex(m: map<uint32, Header>, c: seq<Header>) {
    && (forall h: uint32 :: h in m <==> h < |c|)
    && (forall h: uint32 :: h in m ==> m[h] == c[h])
  }

  ghost predicate MerkleIndex(m: map<uint32, Hash>, c: seq<Header>) {
    && (forall h: uint32 :: h in m <==> h < |c|)
    && (forall h: uint32 :: h in m ==> m[h] == c[h].merkleRoot)
  }

  /** The hash index is exactly the inverse of height to hash. */
  ghost predicate HashIndex(hash: HashFn, m: map<Hash, uint32>, c: seq<Header>) {
    && (forall h: uint32 :: h < |c| ==> hash(c[h]) in m && m[hash(c[h])] == h)
    && (forall x :: x in m ==> m[x] < |c| && hash(c[m[x]]) == x)
  }

  /** The three indexes describe exactly the chain c. */
  ghost predicate Indexes(cfg: Config, db: Db, c: seq<Header>) {
    HeaderIndex(db.headers, c) && MerkleIndex(db.merkle, c) && HashIndex(cfg.hash, db.heights, c)
  }

  /** The store, in memory and on disk, describes exactly the chain c. */
  ghost predicate Represents(cfg: Config, s: State, c: seq<Header>) {
    && ValidChain(cfg, c)
    && |c| <= TWO_TO_THE_32
    && Indexes(cfg, s.db, c)
    && s.tip == |c| - 1
    && s.db.tip == Some(s.tip)
    && s.work == TotalWork(c[1..])
    && (s.db.work == Some(s.work) || (s.db.work.None? && |c| == 1))
  }

  // ------------------------------------------------------- distinct hashes

  lemma ChainLink(cfg: Config, c: seq<Header>, i: nat)
    requires ValidChain(cfg, c) && 0 < i < |c|
    ensures c[i].prev == cfg.hash(c[i - 1])
  {
    var tail := c[1..];
    assert tail[i - 1] == c[i];
    assert AcceptableAt(cfg.hash, cfg.skipPow, cfg.hash(cfg.genesis), tail, i - 1);
  }

  // Equal hashes mean equal headers, hence equal predecessors, all the way
  // down to genesis, which has none.
  lemma {:induction false} Descent(cfg: Config, universe: set<Header>, c: seq<Header>, i: nat, j: nat)
    requires ValidChain(cfg, c) && CollisionFree(cfg, universe) && Within(c, universe)
    requires i < j < |c|
    ensures cfg.hash(c[i]) != cfg.hash(c[j])
  {
    ChainLink(cfg, c, j);
    if i > 0 {
      ChainLink(cfg, c, i);
      Descent(cfg, universe, c, i - 1, j - 1);
    }
  }

  /** A linked chain from genesis never repeats a header. */
  lemma ChainHasDistinctHashes(cfg: Config, universe: set<Header>, c: seq<Header>)
    requires ValidChain(cfg, c) && CollisionFree(cfg, universe) && Within(c, universe)
    ensures DistinctHashes(cfg, c)
  {
    forall i, j | 0 <= i < j < |c|
      ensures cfg.hash(c[i]) != cfg.hash(c[j])
    {
      Descent(cfg, universe, c, i, j);
    }
  }

  // ------------------------------------------------------------ AddHeaders

  lemma PutHash(hash: HashFn, m: map<Hash, uint32>, c: seq<Header>, hdr: Header)
    requires HashIndex(hash, m, c) && |c| < TWO_TO_THE_32
    requires forall i :: 0 <= i < |c| ==> hash(c[i]) != hash(hdr)
    ensures HashIndex(hash, m[hash(hdr) := |c|], c + [hdr])
  {
    var m' := m[hash(hdr) := |c|];
    forall h: uint32 | h < |c| + 1
      ensures hash((c + [hdr])[h]) in m' && m'[hash((c + [hdr])[h])] == h
    {
      if h < |c| {
        assert (c + [hdr])[h] == c[h];
      }
    }
  }

  lemma PutEntries(headers: map<uint32, Header>, merkle: map<uint32, Hash>, c: seq<Header>, hdr: Header)
    requires HeaderIndex(headers, c) && MerkleIndex(merkle, c) && |c| < TWO_TO_THE_32
    ensures HeaderIndex(headers[|c| := hdr], c + [hdr])
    ensures MerkleIndex(merkle[|c| := hdr.merkleRoot], c + [hdr])
  {
  }

  lemma PutExtendsIndexes(cfg: Config, db: Db, c: seq<Header>, hdr: Header)
    requires Indexes(cfg, db, c) && |c| < TWO_TO_THE_32
    requires DistinctHashes(cfg, c + [hdr])
    ensures Indexes(cfg, PutHeader(cfg, db, |c|, hdr), c + [hdr])
  {
    forall i | 0 <= i < |c|
      ensures cfg.hash(c[i]) != cfg.hash(hdr)
    {
      assert (c + [hdr])[i] == c[i] && (c + [hdr])[|c|] == hdr;
    }
    PutHash(cfg.hash, db.heights, c, hdr);
    PutEntries(db.headers, db.merkle, c, hdr);
  }

  lemma DistinctPrefix(cfg: Config, c: seq<Header>, n: nat)
    requires n <= |c| && DistinctHashes(cfg, c)
    ensures DistinctHashes(cfg, c[..n])
  {
  }

  lemma {:induction false} BatchExtendsIndexes(cfg: Config, k: Cursor, c: seq<Header>, headers: seq<Header>)
    requires Indexes(cfg, k.db, c) && |c| <= TWO_TO_THE_32 && k.height == Wrap(|c|)
    requires |c| + |headers| <= TWO_TO_THE_32
    requires DistinctHashes(cfg, c + headers)
    ensures Indexes(cfg, AddAll(cfg, k, headers).db, c + headers)
    ensures AddAll(cfg, k, headers).height == Wrap(|c| + |headers|)
  {
    hide Indexes, PutHeader;
    if headers == [] {
      assert c + headers == c;
    } else {
      var init, last := headers[..|headers| - 1], headers[|headers| - 1];
      assert (c + headers)[..|c + init|] == c + init;
      assert c + headers == c + init + [last];
      DistinctPrefix(cfg, c + headers, |c + init|);
      BatchExtendsIndexes(cfg, k, c, init);
      PutExtendsIndexes(cfg, AddAll(cfg, k, init).db, c + init, last);
    }
  }

  /** A batch leaves the tip and work keys alone and gains exactly its own work. */
  lemma {:induction false} BatchWork(cfg: Config, k: Cursor, headers: seq<Header>)
    ensures AddAll(cfg, k, headers).work == k.work + TotalWork(headers)
    ensures AddAll(cfg, k, headers).db.tip == k.db.tip && AddAll(cfg, k, headers).db.work == k.db.work
    ensures AddAll(cfg, k, headers).prev == if headers == [] then k.prev else cfg.hash(headers[|headers| - 1])
  {
    if headers != [] {
      BatchWork(cfg, k, headers[..|headers| - 1]);
    }
  }

  /** A run a ++ b is acceptable when a is, and b is after a's last hash. */
  lemma {:induction false} AcceptableConcat(hash: HashFn, skipPow: bool, prev: Hash, a: seq<Header>, b: seq<Header>)
    ensures Acceptable(hash, skipPow, prev, a + b)
       <==> Acceptable(hash, skipPow, prev, a) && Acceptable(hash, skipPow, PrevOf(hash, prev, a, |a|), b)
    decreases |b|
  {
    if b == [] {
      assert a + b == a;
    } else {
      var n := |b| - 1;
      AcceptableConcat(hash, skipPow, prev, a, b[..n]);
      assert (a + b)[..|a| + n] == a + b[..n] && (a + b)[..|a| + n + 1] == a + b && b[..n + 1] == b;
      AcceptableStep(hash, skipPow, prev, a + b, |a| + n);
      AcceptableStep(hash, skipPow, PrevOf(hash, prev, a, |a|), b, n);
    }
  }

  /** A valid chain may be extended exactly by a run acceptable after its last hash. */
  lemma ExtendChain(cfg: Config, c: seq<Header>, b: seq<Header>)
    requires ValidChain(cfg, c)
    ensures ValidChain(cfg, c + b) <==> Acceptable(cfg.hash, cfg.skipPow, cfg.hash(c[|c| - 1]), b)
  {
    assert (c + b)[1..] == c[1..] + b;
    AcceptableConcat(cfg.hash, cfg.skipPow, cfg.hash(cfg.genesis), c[1..], b);
  }

  /** On a store that describes c, AddHeaders accepts exactly the extensions of c, and then describes the extension. */
  lemma AddKeepsChain(cfg: Config, universe: set<Header>, s: State, c: seq<Header>, start: uint32, b: seq<Header>)
    requires Represents(cfg, s, c)
    requires CollisionFree(cfg, universe) && Within(c + b, universe)
    requires |c| + |b| <= TWO_TO_THE_32
    ensures Accepts(cfg, s, start, b) <==> start == Wrap(|c|) && ValidChain(cfg, c + b)
    ensures Represents(cfg, Added(cfg, s, start, b), if Accepts(cfg, s, start, b) then c + b else c)
  {
    ExtendChain(cfg, c, b);
    if b == [] {
      assert c + b == c;
    } else if Accepts(cfg, s, start, b) {
      CommitExtends(cfg, universe, s, c, start, b);
    }
  }

  lemma CommitIndexes(cfg: Config, universe: set<Header>, s: State, c: seq<Header>, start: uint32, b: seq<Header>)
    requires Represents(cfg, s, c) && ValidChain(cfg, c + b)
    requires CollisionFree(cfg, universe) && Within(c + b, universe)
    requires |c| + |b| <= TWO_TO_THE_32 && start == Wrap(|c|)
    ensures Indexes(cfg, AddAll(cfg, StartCursor(cfg, s, start), b).db, c + b)
    ensures AddAll(cfg, StartCursor(cfg, s, start), b).height == Wrap(|c| + |b|)
  {
    ChainHasDistinctHashes(cfg, universe, c + b);
    BatchExtendsIndexes(cfg, StartCursor(cfg, s, start), c, b);
  }

  lemma TipIsStored(cfg: Config, s: State, c: seq<Header>)
    requires Represents(cfg, s, c)
    ensures s.tip in s.db.headers
  {
    hide ValidChain, TotalWork, MerkleIndex, HashIndex;
  }

  lemma CommitExtends(cfg: Config, universe: set<Header>, s: State, c: seq<Header>, start: uint32, b: seq<Header>)
    requires Represents(cfg, s, c) && ValidChain(cfg, c + b)
    requires CollisionFree(cfg, universe) && Within(c + b, universe)
    requires |c| + |b| <= TWO_TO_THE_32 && b != [] && start == Wrap(|c|)
    ensures Represents(cfg, Commit(s, AddAll(cfg, StartCursor(cfg, s, start), b)), c + b)
  {
    hide Indexes, ValidChain, TotalWork, AddAll, CollisionFree, Within;
    TipIsStored(cfg, s, c);
    var k := AddAll(cfg, StartCursor(cfg, s, start), b);
    CommitIndexes(cfg, universe, s, c, start, b);
    BatchWork(cfg, StartCursor(cfg, s, start), b);
    ExtensionWork(c, b);
    var s' := Commit(s, k);
    SameIndexes(cfg, k.db, s'.db, c + b);
  }

  lemma SameIndexes(cfg: Config, a: Db, b: Db, c: seq<Header>)
    requires Indexes(cfg, a, c) && a.headers == b.headers && a.heights == b.heights && a.merkle == b.merkle
    ensures Indexes(cfg, b, c)
  {
  }

  lemma ExtensionWork(c: seq<Header>, b: seq<Header>)
    requires |c| > 0
    ensures TotalWork((c + b)[1..]) == TotalWork(c[1..]) + TotalWork(b)
  {
    assert (c + b)[1..] == c[1..] + b;
    TotalWorkConcat(c[1..], b);
  }
}
