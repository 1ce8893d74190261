/** How AddHeaders treats its batches, and where uint32 heights break it. */
module HeaderBatches {
  import opened Numbers
  import opened Wrappers
  import opened Headers
  import opened HeaderStore
  import opened HeaderChain

  // --------------------------------------------------- batch independence

  lemma {:induction false} AddAllConcat(cfg: Config, k: Cursor, a: seq<Header>, b: seq<Header>)
    ensures AddAll(cfg, k, a + b) == AddAll(cfg, AddAll(cfg, k, a), b)
    decreases |b|
  {
    if b == [] {
      assert a + b == a;
    } else {
      AddAllConcat(cfg, k, a, b[..|b| - 1]);
      assert (a + b)[..|a + b| - 1] == a + b[..|b| - 1];
    }
  }

  /** The batch loop reads neither the tip nor the work key, and only adds to the work it is given. */
  lemma {:induction false} AddAllFrame(
      cfg: Config, k: Cursor, tip: Option<uint32>, work: Option<nat>, n: nat, b: seq<Header>)
    ensures var k' := k.(db := k.db.(tip := tip, work := work), work := n);
            AddAll(cfg, k', b) ==
            AddAll(cfg, k, b).(db := AddAll(cfg, k, b).db.(tip := tip, work := work), work := n + TotalWork(b))
  {
    if b != [] {
      AddAllFrame(cfg, k, tip, work, n, b[..|b| - 1]);
    }
  }

  /** After a non-empty batch the header just below the cursor is the last of the batch. */
  lemma LastStored(cfg: Config, k: Cursor, b: seq<Header>)
    requires b != []
    ensures var k' := AddAll(cfg, k, b);
            Previous(k'.height) in k'.db.headers && k'.db.headers[Previous(k'.height)] == b[|b| - 1]
  {
  }

  /** Splitting a batch changes neither whether it is accepted nor the state it leaves. */
  lemma BatchesCompose(cfg: Config, s: State, start: uint32, a: seq<Header>, b: seq<Header>)
    requires a != [] && b != []
    ensures Accepts(cfg, s, start, a + b) <==>
            Accepts(cfg, s, start, a) && Accepts(cfg, Added(cfg, s, start, a), Next(Added(cfg, s, start, a).tip), b)
    ensures Accepts(cfg, s, start, a + b) ==>
            Added(cfg, s, start, a + b) == Added(cfg, Added(cfg, s, start, a), Next(Added(cfg, s, start, a).tip), b)
  {
    if start == Next(s.tip) && s.tip in s.db.headers {
      AcceptableConcat(cfg.hash, cfg.skipPow, cfg.hash(s.db.headers[s.tip]), a, b);
      if Accepts(cfg, s, start, a) {
        SecondBatch(cfg, s, start, a, b);
      }
    }
  }

  lemma SecondBatch(cfg: Config, s: State, start: uint32, a: seq<Header>, b: seq<Header>)
    requires a != [] && b != [] && s.tip in s.db.headers && Accepts(cfg, s, start, a)
    ensures var s' := Added(cfg, s, start, a);
            && s'.tip in s'.db.headers && s'.db.headers[s'.tip] == a[|a| - 1]
            && Commit(s', AddAll(cfg, StartCursor(cfg, s', Next(s'.tip)), b))
               == Commit(s, AddAll(cfg, StartCursor(cfg, s, start), a + b))
  {
    var k := StartCursor(cfg, s, start);
    var ka := AddAll(cfg, k, a);
    var s' := Added(cfg, s, start, a);
    LastStored(cfg, k, a);
    BatchWork(cfg, k, a);
    AddAllConcat(cfg, k, a, b);
    AddAllFrame(cfg, ka, s'.db.tip, s'.db.work, 0, b);
    BatchWork(cfg, ka, b);
    assert Next(Previous(ka.height)) == ka.height;
    assert StartCursor(cfg, s', Next(s'.tip)) == ka.(db := s'.db, work := 0);
  }

  /** Above the tip, AddHeaders accepts exactly what ValidateHeaderChain accepts from the tip's hash, and gains its
      cumulative work. */
  lemma AcceptsIsValidation(cfg: Config, s: State, b: seq<Header>)
    requires !cfg.skipPow && s.tip in s.db.headers
    ensures Accepts(cfg, s, Next(s.tip), b) <==> Acceptable(cfg.hash, false, cfg.hash(s.db.headers[s.tip]), b)
    ensures Accepts(cfg, s, Next(s.tip), b) ==> Added(cfg, s, Next(s.tip), b).work == s.work + TotalWork(b)
  {
    BatchWork(cfg, StartCursor(cfg, s, Next(s.tip)), b);
  }

  // ---------------------------------------------------- uint32 heights end

  // Once the height has wrapped, height zero holds a header of the batch.
  lemma {:induction false} WrappedBatch(cfg: Config, k: Cursor, n: nat, b: seq<Header>)
    requires n <= TWO_TO_THE_32 && k.height == Wrap(n)
    ensures n + |b| <= TWO_TO_THE_32 ==> AddAll(cfg, k, b).height == Wrap(n + |b|)
    ensures n + |b| > TWO_TO_THE_32 ==> 0 in AddAll(cfg, k, b).db.headers && AddAll(cfg, k, b).db.headers[0] in b
  {
    if b != [] {
      WrappedBatch(cfg, k, n, b[..|b| - 1]);
    }
  }

  lemma GenesisDoesNotRecur(cfg: Config, universe: set<Header>, c: seq<Header>, b: seq<Header>, i: nat)
    requires ValidChain(cfg, c + b) && |c| > 0 && i < |b|
    requires CollisionFree(cfg, universe) && Within(c + b, universe)
    ensures b[i] != cfg.genesis
  {
    ChainLink(cfg, c + b, |c| + i);
    assert (c + b)[|c| + i] == b[i];
  }

  /** An accepted batch keeps the store a chain from genesis exactly when its last height fits in 32 bits. */
  lemma HeightsMustFit(cfg: Config, universe: set<Header>, s: State, c: seq<Header>, start: uint32, b: seq<Header>)
    requires Represents(cfg, s, c) && Accepts(cfg, s, start, b) && b != []
    requires CollisionFree(cfg, universe) && Within(c + b, universe)
    ensures (exists d :: Represents(cfg, Added(cfg, s, start, b), d)) <==> |c| + |b| <= TWO_TO_THE_32
  {
    ExtendChain(cfg, c, b);
    if |c| + |b| <= TWO_TO_THE_32 {
      AddKeepsChain(cfg, universe, s, c, start, b);
    } else {
      var k := StartCursor(cfg, s, start);
      WrappedBatch(cfg, k, |c|, b);
      var i :| 0 <= i < |b| && b[i] == AddAll(cfg, k, b).db.headers[0];
      GenesisDoesNotRecur(cfg, universe, c, b, i);
      forall d
        ensures !Represents(cfg, Added(cfg, s, start, b), d)
      {
        NotGenesisAtZero(cfg, Added(cfg, s, start, b), d);
      }
    }
  }

  lemma NotGenesisAtZero(cfg: Config, s: State, d: seq<Header>)
    requires 0 in s.db.headers && s.db.headers[0] != cfg.genesis
    ensures !Represents(cfg, s, d)
  {
  }
}
