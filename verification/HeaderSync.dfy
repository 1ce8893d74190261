/** Header sync: the block locator and the sync loop (internal/headers/sync.go). */
module HeaderSync {
  import opened Numbers
  import opened Wrappers
  import opened Headers
  import opened HeaderStore
  import opened HeaderChain
  import HeaderRuns

  // ---------------------------------------------------------- the locator

  /** The step after the i-th entry: it doubles from the eleventh on. */
  function NextStep(i: nat, step: uint32): uint32 {
    if i >= 10 then step * 2 % TWO_TO_THE_32 else step
  }

  function StepBack(height: uint32, step: uint32): uint32 {
    if height <= step then 0 else height - step
  }

  /** The heights the loop visits from its i-th round on. */
  function LoopHeights(i: nat, step: uint32, height: uint32): seq<uint32>
    decreases 32 - i
  {
    if i >= 32 then []
    else if height == 0 then [0]
    else [height] + LoopHeights(i + 1, NextStep(i, step), StepBack(height, NextStep(i, step)))
  }

  /** The heights of the locator, newest first. */
  function LocatorHeights(tip: uint32): seq<uint32> {
    var l := LoopHeights(0, 1, tip);
    if l != [] && l[|l| - 1] == 0 then l else l + [0]
  }

  ghost predicate AllIn(headers: map<uint32, Header>, heights: seq<uint32>) {
    forall h :: h in heights ==> h in headers
  }

  function HashesAt(hash: HashFn, headers: map<uint32, Header>, heights: seq<uint32>): seq<Hash>
    requires AllIn(headers, heights)
  {
    if heights == [] then []
    else HashesAt(hash, headers, heights[..|heights| - 1]) + [hash(headers[heights[|heights| - 1]])]
  }

  lemma HashesAppend(hash: HashFn, headers: map<uint32, Header>, heights: seq<uint32>, h: uint32)
    requires AllIn(headers, heights) && h in headers
    ensures AllIn(headers, heights + [h])
    ensures HashesAt(hash, headers, heights + [h]) == HashesAt(hash, headers, heights) + [hash(headers[h])]
  {
    assert (heights + [h])[..|heights|] == heights;
  }

  lemma {:induction false} HashesAreAt(hash: HashFn, headers: map<uint32, Header>, heights: seq<uint32>)
    requires AllIn(headers, heights)
    ensures |HashesAt(hash, headers, heights)| == |heights|
    ensures forall k :: 0 <= k < |heights| ==> HashesAt(hash, headers, heights)[k] == hash(headers[heights[k]])
  {
    if heights != [] {
      HashesAreAt(hash, headers, heights[..|heights| - 1]);
    }
  }

  /** The hashes of the chain at the locator's heights, or an error when one of them is not stored. */
  method BuildLocator(store: Store) returns (r: Result<seq<Hash>, HeaderError>)
    ensures r.Success? <==> AllIn(store.db.headers, LocatorHeights(store.tip))
    ensures r.Success? ==>
      var heights := LocatorHeights(store.tip);
      && |r.value| == |heights|
      && forall k :: 0 <= k < |heights| ==> r.value[k] == store.cfg.hash(store.db.headers[heights[k]])
    ensures r.Success? ==> r.value == HashesAt(store.cfg.hash, store.db.headers, LocatorHeights(store.tip))
  {
    if AllIn(store.db.headers, LocatorHeights(store.tip)) {
      HashesAreAt(store.cfg.hash, store.db.headers, LocatorHeights(store.tip));
    }
    r := LocatorFrom(store.cfg.hash, store.db.headers, store.tip);
  }

  lemma HashesOfNone(hash: HashFn, headers: map<uint32, Header>)
    ensures AllIn(headers, []) && HashesAt(hash, headers, []) == []
  {
  }

  // One round of the loop.
  lemma LoopRound(i: nat, step: uint32, height: uint32)
    ensures LoopHeights(i, step, height) ==
            if i >= 32 then [] else if height == 0 then [0]
            else [height] + LoopHeights(i + 1, NextStep(i, step), StepBack(height, NextStep(i, step)))
  {
  }

  method LocatorFrom(hash: HashFn, headers: map<uint32, Header>, tip: uint32)
      returns (r: Result<seq<Hash>, HeaderError>)
    ensures r.Success? <==> AllIn(headers, LocatorHeights(tip))
    ensures r.Success? ==> r.value == HashesAt(hash, headers, LocatorHeights(tip))
  {
    hide LoopHeights, HashesAt, NextStep, StepBack;
    var locators: seq<Hash> := [];
    var step: uint32, height: uint32, addedGenesis := 1, tip, false;
    ghost var visited: seq<uint32>, rest: seq<uint32> := [], LoopHeights(0, 1, tip);
    var i := 0;
    assert HashesAt(hash, headers, []) == [] by { HashesOfNone(hash, headers); }
    while i < 32
      invariant 0 <= i <= 32
      invariant LoopHeights(0, 1, tip) == visited + rest
      invariant rest == LoopHeights(i, step, height)
      invariant visited == [] || visited[|visited| - 1] != 0
      invariant AllIn(headers, visited) && locators == HashesAt(hash, headers, visited)
    {
      LoopRound(i, step, height);
      if height !in headers {
        assert rest[0] == height && height in LoopHeights(0, 1, tip);
        return Failure(HeaderMissing);
      }
      HashesAppend(hash, headers, visited, height);
      locators := locators + [hash(headers[height])];
      visited := visited + [height];
      if height == 0 {
        rest, addedGenesis := [], true;
        break;
      }
      step := NextStep(i, step);
      height := StepBack(height, step);
      rest := rest[1..];
      i := i + 1;
    }
    if !addedGenesis {
      LoopRound(i, step, height);
    }
    assert visited + rest == visited;
    if !addedGenesis {
      if 0 !in headers {
        assert 0 in LocatorHeights(tip);
        return Failure(HeaderMissing);
      }
      HashesAppend(hash, headers, visited, 0);
      locators := locators + [hash(headers[0])];
    }
    return Success(locators);
  }

  // ------------------------------------------------- shape of the locator

  /** The step in force when round i begins, and how far below the tip that round looks. */
  function StepAt(i: nat): nat {
    if i <= 10 then 1 else 2 * StepAt(i - 1)
  }

  function DepthAt(i: nat): nat {
    if i == 0 then 0 else DepthAt(i - 1) + StepAt(i)
  }

  function HeightAt(tip: uint32, i: nat): uint32 {
    if DepthAt(i) <= tip then tip - DepthAt(i) else 0
  }

  lemma {:induction false} DepthClosedForm(i: nat)
    ensures StepAt(i) >= 1
    ensures i <= 10 ==> DepthAt(i) == i
    ensures i >= 10 ==> DepthAt(i) == 8 + 2 * StepAt(i)
  {
    if i > 0 {
      DepthClosedForm(i - 1);
    }
  }

  lemma {:induction false} StepGrows(i: nat, j: nat)
    requires i <= j
    ensures StepAt(i) <= StepAt(j) && DepthAt(i) <= DepthAt(j)
  {
    if i < j {
      StepGrows(i, j - 1);
      DepthClosedForm(j);
      DepthClosedForm(j - 1);
    }
  }

  lemma LastStep()
    ensures StepAt(31) == 0x20_0000 && DepthAt(31) == 0x40_0008
  {
    assert StepAt(20) == 0x400;
    assert StepAt(31) == 0x20_0000;
    DepthClosedForm(31);
  }

  // From round i on the loop visits HeightAt(i), HeightAt(i + 1), ... and
  // stops after the first zero or after 32 rounds in all.
  ghost predicate Visits(l: seq<uint32>, tip: uint32, i: nat) {
    && 0 < |l| <= 32 - i
    && (forall j :: 0 <= j < |l| ==> l[j] == HeightAt(tip, i + j))
    && (forall j :: 0 <= j < |l| - 1 ==> l[j] > 0)
    && (l[|l| - 1] == 0 || |l| == 32 - i)
  }

  lemma RoundAdvances(tip: uint32, i: nat, step: uint32)
    requires i < 32 && step == StepAt(i) <= 0x20_0000
    ensures NextStep(i, step) == StepAt(i + 1)
    ensures HeightAt(tip, i) > 0 ==> StepBack(HeightAt(tip, i), NextStep(i, step)) == HeightAt(tip, i + 1)
  {
    DepthClosedForm(i);
  }

  lemma {:induction false} LoopVisits(tip: uint32, i: nat, step: uint32, height: uint32)
    requires i <= 31 && step == StepAt(i) && height == HeightAt(tip, i)
    ensures Visits(LoopHeights(i, step, height), tip, i)
    decreases 32 - i
  {
    StepGrows(i, 31);
    LastStep();
    if height > 0 {
      RoundAdvances(tip, i, step);
      var next, back := NextStep(i, step), StepBack(height, NextStep(i, step));
      var l := LoopHeights(i + 1, next, back);
      if i == 31 {
        assert l == [];
      } else {
        LoopVisits(tip, i + 1, next, back);
        VisitsCons(l, tip, i);
      }
    }
  }

  lemma VisitsCons(l: seq<uint32>, tip: uint32, i: nat)
    requires Visits(l, tip, i + 1) && HeightAt(tip, i) > 0
    ensures Visits([HeightAt(tip, i)] + l, tip, i)
  {
    var m := [HeightAt(tip, i)] + l;
    forall j | 0 <= j < |m|
      ensures m[j] == HeightAt(tip, i + j)
    {
      if j > 0 {
        assert l[j - 1] == HeightAt(tip, i + 1 + (j - 1));
      }
    }
  }

  lemma HeightsDescend(tip: uint32, j: nat)
    requires HeightAt(tip, j) > 0
    ensures HeightAt(tip, j) > HeightAt(tip, j + 1)
  {
    hide StepAt;
    DepthClosedForm(j + 1);
    assert DepthAt(j + 1) == DepthAt(j) + StepAt(j + 1);
  }

  lemma VisitsDescend(l: seq<uint32>, tip: uint32)
    requires Visits(l, tip, 0)
    ensures l[0] == tip && forall j :: 0 <= j < |l| - 1 ==> l[j] > l[j + 1]
  {
    hide StepAt;
    assert l[0] == HeightAt(tip, 0 + 0);
    hide DepthAt, HeightAt;
    forall j | 0 <= j < |l| - 1
      ensures l[j] > l[j + 1]
    {
      assert l[j + 1] == HeightAt(tip, 0 + (j + 1)) && l[j] == HeightAt(tip, 0 + j);
      HeightsDescend(tip, j);
    }
  }

  function PowerOfTwo(n: nat): nat {
    if n == 0 then 1 else 2 * PowerOfTwo(n - 1)
  }

  /** How far below the tip the k-th entry is: one at a time down to ten, and then in steps that double. */
  function Depth(k: nat): nat {
    if k <= 10 then k else 8 + PowerOfTwo(k - 9)
  }

  lemma {:induction false} StepIsPower(i: nat)
    requires i >= 10
    ensures StepAt(i) == PowerOfTwo(i - 10)
  {
    if i > 10 {
      StepIsPower(i - 1);
    }
  }

  lemma DepthIsDepth(i: nat)
    ensures DepthAt(i) == Depth(i)
  {
    DepthClosedForm(i);
    if i > 10 {
      StepIsPower(i);
    }
  }

  /** The locator, entry by entry: the k-th is there while the one before it lies above genesis, up to the 33rd, and is
      the tip less the depth, or genesis. */
  lemma LocatorExactly(tip: uint32, k: nat)
    ensures var l := LocatorHeights(tip);
      && (k < |l| <==> k == 0 || (k <= 32 && Depth(k - 1) < tip))
      && (k < |l| ==> l[k] == if k == 32 || Depth(k) >= tip then 0 else tip - Depth(k))
  {
    hide LoopHeights, StepAt, DepthAt, Depth;
    var l := LoopHeights(0, 1, tip);
    TipVisits(tip);
    DepthIsDepth(k);
    if k > 0 {
      DepthIsDepth(k - 1);
    }
    if k < |l| {
      assert l[k] == HeightAt(tip, 0 + k);
      assert k > 0 ==> l[k - 1] == HeightAt(tip, 0 + (k - 1));
    } else {
      assert l[|l| - 1] == HeightAt(tip, 0 + (|l| - 1));
      StepGrows(|l| - 1, k - 1);
    }
  }

  /** The locator starts at the tip, strictly descends to genesis and has at most 33 entries. */
  lemma LocatorShape(tip: uint32)
    ensures var l := LocatorHeights(tip);
            && 0 < |l| <= 33
            && l[0] == tip && l[|l| - 1] == 0
            && (forall j :: 0 <= j < |l| - 1 ==> l[j] > l[j + 1])
  {
    hide LoopHeights, StepAt, DepthAt, HeightAt;
    var l := LoopHeights(0, 1, tip);
    TipVisits(tip);
    VisitsDescend(l, tip);
  }

  lemma TipVisits(tip: uint32)
    ensures Visits(LoopHeights(0, 1, tip), tip, 0)
  {
    hide LoopHeights, Visits;
    assert StepAt(0) == 1 && HeightAt(tip, 0) == tip;
    LoopVisits(tip, 0, 1, tip);
  }

  /** Every height of the locator is stored when the store describes a chain. */
  lemma LocatorIsStored(cfg: Config, s: State, c: seq<Header>)
    requires Represents(cfg, s, c)
    ensures AllIn(s.db.headers, LocatorHeights(s.tip))
  {
    hide LoopHeights, StepAt, DepthAt, ValidChain;
    var l := LoopHeights(0, 1, s.tip);
    TipVisits(s.tip);
    forall h | h in LocatorHeights(s.tip)
      ensures h <= s.tip
    {
      if h in l {
        var j :| 0 <= j < |l| && l[j] == h;
        assert l[j] == HeightAt(s.tip, 0 + j);
      }
    }
  }

  /** Some entry lies between d and 2d below the tip. */
  ghost predicate CoversDepth(tip: uint32, d: nat) {
    exists h :: h in LocatorHeights(tip) && d <= tip - h <= 2 * d
  }

  const COVERED_TIP: uint32 := 0x80_0012

  /** The first round at least d below the tip is at most 2d below it. */
  lemma {:induction false} FirstRoundBelow(tip: uint32, d: nat, i: nat) returns (k: nat)
    requires 0 < d <= DepthAt(i)
    ensures 0 < k <= i && DepthAt(k - 1) < d <= DepthAt(k) <= 2 * d
  {
    if d <= DepthAt(i - 1) {
      k := FirstRoundBelow(tip, d, i - 1);
    } else {
      k := i;
      DepthClosedForm(i);
      DepthClosedForm(i - 1);
    }
  }

  /** The locator's entries: the rounds of the loop, and genesis. */
  lemma LocatorEntries(tip: uint32) returns (rounds: nat)
    ensures 0 < rounds <= 32
    ensures 0 in LocatorHeights(tip)
    ensures forall k :: 0 <= k < rounds ==> HeightAt(tip, k) in LocatorHeights(tip)
    ensures rounds == 32 || DepthAt(rounds - 1) >= tip
  {
    hide LoopHeights, StepAt, DepthAt;
    var l := LoopHeights(0, 1, tip);
    TipVisits(tip);
    rounds := |l|;
    forall k | 0 <= k < rounds
      ensures HeightAt(tip, k) in LocatorHeights(tip)
    {
      assert l[k] == HeightAt(tip, 0 + k) && l[k] in l;
    }
    assert l[|l| - 1] == HeightAt(tip, 0 + (|l| - 1));
    var g := LocatorHeights(tip);
    assert g[|g| - 1] == 0;
  }

  lemma CoveredDepth(tip: uint32, d: nat)
    requires d <= tip <= COVERED_TIP
    ensures CoversDepth(tip, d)
  {
    hide LocatorHeights, LoopHeights, StepAt, DepthAt;
    var rounds := LocatorEntries(tip);
    LastStep();
    if d == 0 {
      DepthClosedForm(0);
      assert HeightAt(tip, 0) == tip;
    } else if DepthAt(rounds - 1) < d {
      assert rounds == 32;
    } else {
      var k := FirstRoundBelow(tip, d, rounds - 1);
      assert d <= tip - HeightAt(tip, k) <= 2 * d;
    }
  }

  lemma UncoveredDepth(tip: uint32)
    requires tip > COVERED_TIP
    ensures !CoversDepth(tip, 0x40_0009)
  {
    hide LoopHeights, StepAt, DepthAt;
    var l := LoopHeights(0, 1, tip);
    TipVisits(tip);
    LastStep();
    forall h | h in LocatorHeights(tip)
      ensures !(0x40_0009 <= tip - h <= 2 * 0x40_0009)
    {
      if h in l {
        var j :| 0 <= j < |l| && l[j] == h;
        assert l[j] == HeightAt(tip, 0 + j);
        StepGrows(j, 31);
      }
    }
  }

  /** Every fork is found within twice its depth exactly for tips up to 2^23 + 18. */
  lemma LocatorCoverage(tip: uint32)
    ensures (forall d: nat :: d <= tip ==> CoversDepth(tip, d)) <==> tip <= COVERED_TIP
  {
    if tip <= COVERED_TIP {
      forall d: nat | d <= tip
        ensures CoversDepth(tip, d)
      {
        CoveredDepth(tip, d);
      }
    } else {
      UncoveredDepth(tip);
    }
  }

  // --------------------------------------------------------- the sync loop

  const MAX_HEADERS_PER_MSG := 2000

  /** What the peer does in one round: refuse the request, fail to answer, or answer with headers. */
  datatype Reply = RequestFails | ReadFails | Batch(headers: seq<Header>)

  datatype SyncOutcome = Synced | LocatorError | PeerError | StoreError

  /** Where a sync ends, how, and after how many replies. */
  datatype SyncEnd = SyncEnd(state: State, outcome: SyncOutcome, rounds: nat)

  /** The sync loop against a peer that gives these replies and then nothing more. */
  ghost function SyncRun(cfg: Config, s: State, replies: seq<Reply>): SyncEnd
    decreases |replies|
  {
    if !AllIn(s.db.headers, LocatorHeights(s.tip)) then SyncEnd(s, LocatorError, 0)
    else if replies == [] || !replies[0].Batch? then SyncEnd(s, PeerError, Min(1, |replies|))
    else if replies[0].headers == [] then SyncEnd(s, Synced, 1)
    else if !Accepts(cfg, s, Next(s.tip), replies[0].headers) then SyncEnd(s, StoreError, 1)
    else
      var s' := Added(cfg, s, Next(s.tip), replies[0].headers);
      if |replies[0].headers| < MAX_HEADERS_PER_MSG then SyncEnd(s', Synced, 1)
      else
        var end := SyncRun(cfg, s', replies[1..]);
        end.(rounds := end.rounds + 1)
  }

  predicate IsFull(r: Reply) {
    r.Batch? && |r.headers| >= 2000
  }

  /** Where a sync may stop, given what the peer answers. It asks again exactly after 2000 headers or more: success
      takes a last answer of fewer (or none), and every answer before the last one used was full. */
  ghost predicate Stops(replies: seq<Reply>, outcome: SyncOutcome, rounds: nat) {
    && rounds <= |replies|
    && (forall i :: 0 <= i < rounds - 1 ==> IsFull(replies[i]))
    && match outcome
       case Synced => rounds > 0 && replies[rounds - 1].Batch? && |replies[rounds - 1].headers| < 2000
       case LocatorError => rounds > 0 ==> IsFull(replies[rounds - 1])
       case PeerError =>
         if rounds > 0 && !IsFull(replies[rounds - 1]) then !replies[rounds - 1].Batch? else rounds == |replies|
       case StoreError => rounds > 0 && replies[rounds - 1].Batch? && replies[rounds - 1].headers != []
  }

  lemma {:induction false} SyncStops(cfg: Config, s: State, replies: seq<Reply>)
    ensures Stops(replies, SyncRun(cfg, s, replies).outcome, SyncRun(cfg, s, replies).rounds)
    decreases |replies|
  {
    hide Added, Accepts, LocatorHeights, AllIn;
    var end := SyncRun(cfg, s, replies);
    if end.rounds > 1 {
      var s' := Added(cfg, s, Next(s.tip), replies[0].headers);
      SyncStops(cfg, s', replies[1..]);
      forall i | 0 <= i < end.rounds - 1
        ensures IsFull(replies[i])
      {
        if i > 0 {
          assert replies[i] == replies[1..][i - 1];
        }
      }
    } else if replies != [] && IsFull(replies[0]) && AllIn(s.db.headers, LocatorHeights(s.tip)) &&
              Accepts(cfg, s, Next(s.tip), replies[0].headers) {
      SyncStops(cfg, Added(cfg, s, Next(s.tip), replies[0].headers), replies[1..]);
    }
  }

  method SyncWith(store: Store, replies: seq<Reply>) returns (r: Result<uint32, SyncOutcome>, rounds: nat)
    modifies store
    ensures Stops(replies, if r.Success? then Synced else r.error, rounds)
    ensures SyncRun(store.cfg, old(store.Snapshot()), replies) ==
            SyncEnd(store.Snapshot(), if r.Success? then Synced else r.error, rounds)
    ensures r.Success? ==> r.value == store.tip
    ensures r.Failure? ==> r.error != Synced
  {
    hide Accepts, LocatorHeights, AllIn, Stops, AddAll, Commit, StartCursor;
    rounds := 0;
    ghost var start := store.Snapshot();
    SyncStops(store.cfg, start, replies);
    while true
      invariant 0 <= rounds <= |replies|
      invariant SyncRun(store.cfg, start, replies) ==
                (var end := SyncRun(store.cfg, store.Snapshot(), replies[rounds..]);
                 end.(rounds := end.rounds + rounds))
      decreases |replies| - rounds
    {
      var locator := BuildLocator(store);
      if locator.Failure? {
        return Failure(LocatorError), rounds;
      }
      if rounds == |replies| {
        return Failure(PeerError), rounds;
      }
      var reply := replies[rounds];
      rounds := rounds + 1;
      if !reply.Batch? {
        return Failure(PeerError), rounds;
      }
      if |reply.headers| == 0 {
        return Success(store.tip), rounds;
      }
      var added := store.AddHeaders(Next(store.tip), reply.headers);
      if added.Failure? {
        return Failure(StoreError), rounds;
      }
      if |reply.headers| < MAX_HEADERS_PER_MSG {
        return Success(store.tip), rounds;
      }
    }
  }

  /** All the headers of these replies, in order. */
  function Joined(replies: seq<Reply>): seq<Header> {
    if replies == [] then []
    else (if replies[0].Batch? then replies[0].headers else []) + Joined(replies[1..])
  }

  /** The replies a sync used, but for one whose headers the store refused. */
  ghost function Kept(replies: seq<Reply>, end: SyncEnd): seq<Reply>
    requires Stops(replies, end.outcome, end.rounds)
  {
    replies[..if end.outcome == StoreError then end.rounds - 1 else end.rounds]
  }

  /** No batch the peer sends carries the tip past the largest uint32 height. */
  ghost predicate RepliesFit(cfg: Config, s: State, replies: seq<Reply>)
    decreases |replies|
  {
    replies == [] || !replies[0].Batch? ||
    (&& s.tip + |replies[0].headers| < TWO_TO_THE_32
     && RepliesFit(cfg, Added(cfg, s, Next(s.tip), replies[0].headers), replies[1..]))
  }

  ghost predicate RepliesWithin(replies: seq<Reply>, universe: set<Header>) {
    forall i :: 0 <= i < |replies| && replies[i].Batch? ==> Within(replies[i].headers, universe)
  }

  /** Whatever the peer answers, the chain a sync gains is exactly the headers of the replies it kept, in order; the
      one it refuses would not have extended that chain, and no stored header is ever missing. */
  lemma {:induction false} SyncGains(
      cfg: Config, universe: set<Header>, s: State, c: seq<Header>, replies: seq<Reply>)
    requires Represents(cfg, s, c) && Within(c, universe)
    requires CollisionFree(cfg, universe) && RepliesWithin(replies, universe)
    requires RepliesFit(cfg, s, replies)
    ensures var end := SyncRun(cfg, s, replies);
            && Stops(replies, end.outcome, end.rounds)
            && Represents(cfg, end.state, c + Joined(Kept(replies, end)))
            && Within(c + Joined(Kept(replies, end)), universe)
            && end.outcome != LocatorError
            && (end.outcome == StoreError ==> !ValidChain(cfg, c + Joined(replies[..end.rounds])))
    decreases |replies|
  {
    hide Indexes, ValidChain, Added, Accepts, LocatorHeights, Within, CollisionFree, TotalWork, AllIn, Stops;
    var end := SyncRun(cfg, s, replies);
    SyncStops(cfg, s, replies);
    LocatorIsStored(cfg, s, c);
    assert c + [] == c;
    FirstJoined(replies);
    if replies != [] && replies[0].Batch? && replies[0].headers != [] {
      var b := replies[0].headers;
      FirstBatch(cfg, universe, s, c, b);
      if Accepts(cfg, s, Next(s.tip), b) && |b| >= MAX_HEADERS_PER_MSG {
        var s' := Added(cfg, s, Next(s.tip), b);
        SyncGains(cfg, universe, s', c + b, replies[1..]);
        KeptStep(replies, end, SyncRun(cfg, s', replies[1..]), c);
      }
    }
  }

  lemma KeptStep(replies: seq<Reply>, end: SyncEnd, end': SyncEnd, c: seq<Header>)
    requires replies != [] && replies[0].Batch? && end == end'.(rounds := end'.rounds + 1)
    requires Stops(replies, end.outcome, end.rounds) && Stops(replies[1..], end'.outcome, end'.rounds)
    ensures c + Joined(Kept(replies, end)) == c + replies[0].headers + Joined(Kept(replies[1..], end'))
    ensures c + Joined(replies[..end.rounds]) == c + replies[0].headers + Joined(replies[1..][..end'.rounds])
  {
    hide Joined;
    var b := replies[0].headers;
    assert replies[1..][..end'.rounds] == replies[1..end.rounds];
    JoinedStep(replies, end.rounds);
    if end.outcome == StoreError {
      assert replies[1..][..end'.rounds - 1] == replies[1..end.rounds - 1];
      JoinedStep(replies, end.rounds - 1);
    }
  }

  lemma FirstJoined(replies: seq<Reply>)
    ensures Joined(replies[..0]) == []
    ensures replies != [] ==> Joined(replies[..1]) == if replies[0].Batch? then replies[0].headers else []
  {
    if replies != [] {
      JoinedStep(replies, 1);
      assert replies[1..1] == [];
    }
  }

  lemma JoinedStep(replies: seq<Reply>, n: nat)
    requires 0 < n <= |replies|
    ensures Joined(replies[..n]) == (if replies[0].Batch? then replies[0].headers else []) + Joined(replies[1..n])
  {
    assert replies[..n][1..] == replies[1..n];
  }

  lemma FirstBatch(cfg: Config, universe: set<Header>, s: State, c: seq<Header>, b: seq<Header>)
    requires Represents(cfg, s, c) && Within(c, universe) && Within(b, universe) && CollisionFree(cfg, universe)
    requires s.tip + |b| < TWO_TO_THE_32
    ensures Accepts(cfg, s, Next(s.tip), b) <==> ValidChain(cfg, c + b)
    ensures Accepts(cfg, s, Next(s.tip), b) ==>
      Represents(cfg, Added(cfg, s, Next(s.tip), b), c + b) && Within(c + b, universe)
  {
    hide Indexes, ValidChain, Added, Accepts, CollisionFree, TotalWork;
    AddKeepsChain(cfg, universe, s, c, Next(s.tip), b);
  }

  lemma {:induction false} FullBatchesJoined(replies: seq<Reply>)
    requires forall i :: 0 <= i < |replies| ==> IsFull(replies[i])
    ensures 2000 * |replies| <= |Joined(replies)|
  {
    if replies != [] {
      forall i | 0 <= i < |replies| - 1
        ensures IsFull(replies[1..][i])
      {
        assert replies[1..][i] == replies[i + 1];
      }
      FullBatchesJoined(replies[1..]);
    }
  }

  lemma Associates(a: seq<Header>, b: seq<Header>, c: seq<Header>)
    ensures a + b + c == a + (b + c)
  {
  }

  lemma {:induction false} JoinedConcat(a: seq<Reply>, b: seq<Reply>)
    ensures Joined(a + b) == Joined(a) + Joined(b)
  {
    if a == [] {
      assert a + b == b;
    } else {
      JoinedConcat(a[1..], b);
      assert (a + b)[1..] == a[1..] + b && (a + b)[0] == a[0];
      Associates(if a[0].Batch? then a[0].headers else [], Joined(a[1..]), Joined(b));
    }
  }

  /** A sync uses at most one reply more than the full batches that fit above the old tip. */
  lemma SyncRoundsBounded(cfg: Config, universe: set<Header>, s: State, c: seq<Header>, replies: seq<Reply>)
    requires Represents(cfg, s, c) && Within(c, universe)
    requires CollisionFree(cfg, universe) && RepliesWithin(replies, universe)
    requires RepliesFit(cfg, s, replies)
    ensures 2000 * (SyncRun(cfg, s, replies).rounds - 1) < TWO_TO_THE_32 - s.tip
  {
    hide Indexes, ValidChain, Within, CollisionFree, TotalWork, SyncRun, Joined;
    var end := SyncRun(cfg, s, replies);
    SyncGains(cfg, universe, s, c, replies);
    if end.rounds > 0 {
      var full := replies[..end.rounds - 1];
      FullBatchesJoined(full);
      var rest := Kept(replies, end)[end.rounds - 1..];
      assert Kept(replies, end) == full + rest;
      JoinedConcat(full, rest);
    }
  }

  /** Answers that end a sync: full ones, and then one that is not. */
  ghost predicate Serves(replies: seq<Reply>) {
    && replies != []
    && (forall i :: 0 <= i < |replies| - 1 ==> IsFull(replies[i]))
    && replies[|replies| - 1].Batch? && |replies[|replies| - 1].headers| < 2000
  }

  lemma {:induction false} SyncReaches(
      cfg: Config, universe: set<Header>, s: State, c: seq<Header>, replies: seq<Reply>, n: nat)
    requires Represents(cfg, s, c) && Within(c, universe)
    requires CollisionFree(cfg, universe) && RepliesWithin(replies, universe)
    requires RepliesFit(cfg, s, replies)
    requires 0 < n <= |replies| && Serves(replies[..n]) && ValidChain(cfg, c + Joined(replies[..n]))
    ensures SyncRun(cfg, s, replies).outcome == Synced && SyncRun(cfg, s, replies).rounds == n
    decreases n
  {
    hide Indexes, ValidChain, Added, Accepts, LocatorHeights, Within, CollisionFree, TotalWork, AllIn, Joined;
    LocatorIsStored(cfg, s, c);
    var b := replies[0].headers;
    assert replies[..n][0] == replies[0] && replies[..n][n - 1] == replies[n - 1];
    if b != [] {
      FirstBatch(cfg, universe, s, c, b);
      JoinedStep(replies, n);
      var rest := Joined(replies[1..n]);
      assert c + Joined(replies[..n]) == c + b + rest;
      assert (c + b + rest)[..|c + b|] == c + b;
      HeaderRuns.ChainPrefix(cfg, c + b + rest, |c + b|);
      if n > 1 {
        assert replies[1..][..n - 1] == replies[1..n];
        ServesRest(replies, n);
        SyncReaches(cfg, universe, Added(cfg, s, Next(s.tip), b), c + b, replies[1..], n - 1);
      }
    }
  }

  lemma ServesRest(replies: seq<Reply>, n: nat)
    requires 1 < n <= |replies| && Serves(replies[..n])
    ensures IsFull(replies[0]) && Serves(replies[1..n])
  {
    assert replies[..n][0] == replies[0];
    forall i | 0 <= i < n - 2
      ensures IsFull(replies[1..n][i])
    {
      assert replies[1..n][i] == replies[..n][i + 1];
    }
  }

  /** A sync succeeds exactly when the peer's first answers are full ones and then a shorter one whose headers, taken
      together, continue the stored chain. */
  lemma SyncSucceedsExactly(cfg: Config, universe: set<Header>, s: State, c: seq<Header>, replies: seq<Reply>)
    requires Represents(cfg, s, c) && Within(c, universe)
    requires CollisionFree(cfg, universe) && RepliesWithin(replies, universe)
    requires RepliesFit(cfg, s, replies)
    ensures SyncRun(cfg, s, replies).outcome == Synced <==>
      exists n: nat :: n <= |replies| && Serves(replies[..n]) && ValidChain(cfg, c + Joined(replies[..n]))
  {
    hide Indexes, ValidChain, Within, CollisionFree, TotalWork, SyncRun, Joined;
    var end := SyncRun(cfg, s, replies);
    if end.outcome == Synced {
      SyncGains(cfg, universe, s, c, replies);
      var n := end.rounds;
      assert Kept(replies, end) == replies[..n];
      assert replies[..n][n - 1] == replies[n - 1];
      assert Serves(replies[..n]);
    }
    if n: nat :| n <= |replies| && Serves(replies[..n]) && ValidChain(cfg, c + Joined(replies[..n])) {
      SyncReaches(cfg, universe, s, c, replies, n);
    }
  }

  /** A peer that has the headers b beyond the stored chain answers with 2000 of them at a time. */
  function Served(b: seq<Header>): seq<Reply> {
    if |b| < 2000 then [Batch(b)] else [Batch(b[..2000])] + Served(b[2000..])
  }

  lemma {:induction false} ServedServes(b: seq<Header>)
    ensures Serves(Served(b)) && Joined(Served(b)) == b && |Served(b)| == |b| / 2000 + 1
  {
    if |b| >= 2000 {
      ServedServes(b[2000..]);
      var rest := Served(b[2000..]);
      assert Served(b)[1..] == rest;
      forall i | 0 <= i < |Served(b)| - 1
        ensures IsFull(Served(b)[i])
      {
        if i > 0 {
          assert Served(b)[i] == rest[i - 1];
        }
      }
      assert b == b[..2000] + b[2000..];
    } else {
      assert Served(b)[1..] == [];
    }
  }

  lemma {:induction false} JoinedFit(
      cfg: Config, universe: set<Header>, s: State, c: seq<Header>, replies: seq<Reply>)
    requires Represents(cfg, s, c) && Within(c, universe)
    requires CollisionFree(cfg, universe) && RepliesWithin(replies, universe)
    requires |c| + |Joined(replies)| <= TWO_TO_THE_32
    ensures RepliesFit(cfg, s, replies)
    decreases |replies|
  {
    hide Indexes, ValidChain, Accepts, Within, CollisionFree, TotalWork;
    if replies != [] && replies[0].Batch? {
      var b := replies[0].headers;
      FirstBatch(cfg, universe, s, c, b);
      if Accepts(cfg, s, Next(s.tip), b) {
        JoinedFit(cfg, universe, Added(cfg, s, Next(s.tip), b), c + b, replies[1..]);
      } else {
        JoinedFit(cfg, universe, s, c, replies[1..]);
      }
    }
  }

  lemma {:induction false} JoinedWithin(replies: seq<Reply>, universe: set<Header>)
    requires Within(Joined(replies), universe)
    ensures RepliesWithin(replies, universe)
  {
    if replies != [] {
      var first := if replies[0].Batch? then replies[0].headers else [];
      forall i | 0 <= i < |Joined(replies[1..])|
        ensures Joined(replies[1..])[i] in universe
      {
        assert Joined(replies)[|first| + i] == Joined(replies[1..])[i];
      }
      forall i | 0 <= i < |first|
        ensures first[i] in universe
      {
        assert Joined(replies)[i] == first[i];
      }
      JoinedWithin(replies[1..], universe);
      forall i | 0 <= i < |replies| && replies[i].Batch?
        ensures Within(replies[i].headers, universe)
      {
        if i > 0 {
          assert replies[i] == replies[1..][i - 1];
        }
      }
    }
  }

  /** A sync with a peer that serves the rest b of a valid chain ends with the whole chain stored, after one answer for
      every 2000 headers and one more. */
  lemma FullSync(cfg: Config, universe: set<Header>, s: State, c: seq<Header>, b: seq<Header>)
    requires Represents(cfg, s, c) && CollisionFree(cfg, universe) && Within(c + b, universe)
    requires ValidChain(cfg, c + b) && |c| + |b| <= TWO_TO_THE_32
    ensures SyncRun(cfg, s, Served(b)).outcome == Synced
    ensures SyncRun(cfg, s, Served(b)).rounds == |b| / 2000 + 1
    ensures Represents(cfg, SyncRun(cfg, s, Served(b)).state, c + b)
  {
    WithinParts(c, b, universe);
    hide Indexes, ValidChain, Within, CollisionFree, TotalWork, SyncRun, Joined, Served, Serves;
    var replies := Served(b);
    ServedServes(b);
    JoinedWithin(replies, universe);
    JoinedFit(cfg, universe, s, c, replies);
    assert replies[..|replies|] == replies;
    SyncReaches(cfg, universe, s, c, replies, |replies|);
    SyncGains(cfg, universe, s, c, replies);
  }

  lemma WithinParts(c: seq<Header>, b: seq<Header>, universe: set<Header>)
    requires Within(c + b, universe)
    ensures Within(c, universe) && Within(b, universe)
  {
    assert (c + b)[..|c|] == c && (c + b)[|c|..] == b;
    forall i | 0 <= i < |b|
      ensures b[i] in universe
    {
      assert (c + b)[|c| + i] == b[i];
    }
    forall i | 0 <= i < |c|
      ensures c[i] in universe
    {
      assert (c + b)[i] == c[i];
    }
  }
}
