/** The pre-minted nonce pool: its critical sections, and every interleaving of
    the threads that run them (internal/api/nonce_pool.go). */
module NoncePool {
  import opened Numbers
  import opened Wrappers

  /** A minted UTXO. */
  datatype Nonce = Nonce(txid: string, vout: nat)

  /** Where a thread stands between two critical sections or calls to the inner provider. */
  datatype Thread =
    | MintEntry                                             // about to look at the pool
    | MintOnDemand                                          // pool was empty, about to mint
    | MintReturn(nonce: Nonce, replenish: bool)             // holds the nonce it will return
    | FillEntry                                             // about to test the minting flag
    | FillMint(needed: int, done: nat)                      // about to mint one more
    | FillAppend(needed: int, done: nat, nonce: Nonce)      // holds the nonce it will append
    | FillExit                                              // about to clear the flag
    | Done

  /** The shared fields, all threads ever started, and what has been minted and issued. */
  datatype State = State(
    pool: seq<Nonce>, minting: bool, threads: seq<Thread>, minted: seq<Nonce>, issued: seq<Nonce>)

  /** One atomic step of thread t; minting steps carry what the inner provider answered. */
  datatype Event =
    | Call                                   // a client calls MintNonce
    | Spawn                                  // a replenish goroutine starts
    | Look(t: nat)                           // first section of MintNonce
    | Mint(t: nat, answer: Option<Nonce>)    // inner.MintNonce returns
    | Return(t: nat)                         // MintNonce returns its nonce
    | Enter(t: nat)                          // first section of replenish
    | Append(t: nat)                         // the section that appends one nonce
    | Exit(t: nat)                           // the section that clears the flag

  // ------------------------------------------------- the critical sections

  /** What MintNonce's section makes of a pool: the rest, the nonce taken, and whether to replenish. */
  function Taken(poolSize: nat, pool: seq<Nonce>): (r: (seq<Nonce>, Option<Nonce>, bool))
    ensures r.1.None? ==> pool == [] && r.0 == []
    ensures r.1.Some? ==> pool == r.0 + [r.1.value]
  {
    if pool == [] then ([], None, false)
    else (pool[..|pool| - 1], Some(pool[|pool| - 1]), |pool| - 1 < poolSize / 4)
  }

  class Pool {
    const poolSize: nat
    var pool: seq<Nonce>
    var minting: bool

    /** A pool size of zero or less means 100. */
    constructor (poolSize: int)
      ensures this.poolSize == (if poolSize <= 0 then 100 else poolSize)
      ensures pool == [] && !minting
    {
      this.poolSize := if poolSize <= 0 then 100 else poolSize;
      pool := [];
      minting := false;
    }

    /** MintNonce's section: take the last ready nonce, and say whether to replenish. */
    method Take() returns (nonce: Option<Nonce>, replenish: bool)
      modifies this`pool
      ensures nonce.Some? <==> |old(pool)| > 0
      ensures nonce.Some? ==> pool + [nonce.value] == old(pool)
      ensures nonce.None? ==> pool == old(pool)
      ensures replenish <==> |old(pool)| > 0 && |pool| < poolSize / 4
      ensures (pool, nonce, replenish) == Taken(poolSize, old(pool))
    {
      if |pool| > 0 {
        nonce := Some(pool[|pool| - 1]);
        pool := pool[..|pool| - 1];
        replenish := |pool| < poolSize / 4;
      } else {
        nonce, replenish := None, false;
      }
    }

    method TryEnter() returns (entered: bool, needed: int)
      modifies this`minting
      ensures entered <==> !old(minting)
      ensures minting
      ensures entered ==> needed == poolSize - |pool|
    {
      entered, needed := !minting, 0;
      if entered {
        minting := true;
        needed := poolSize - |pool|;
      }
    }

    method Put(nonce: Nonce)
      modifies this`pool
      ensures pool == old(pool) + [nonce]
    {
      pool := pool + [nonce];
    }

    method Leave()
      modifies this`minting
      ensures !minting
    {
      minting := false;
    }

    /** replenish with nothing running beside it: it appends what the provider mints until the pool is full or a mint
        fails. */
    method Replenish(answers: seq<Option<Nonce>>)
      requires |answers| >= poolSize
      modifies this
      ensures minting == old(minting)
      ensures old(minting) ==> pool == old(pool)
      ensures !old(minting) ==> pool == old(pool) + Successes(answers[..Max(0, poolSize - |old(pool)|)])
    {
      var entered, needed := TryEnter();
      if !entered {
        return;
      }
      if needed <= 0 {
        Leave();
        assert answers[..0] == [];
        return;
      }
      var i := 0;
      while i < needed
        invariant 0 <= i <= needed && minting
        invariant pool == old(pool) + Successes(answers[..i])
        invariant forall j :: 0 <= j < i ==> answers[j].Some?
      {
        if answers[i].None? {
          SuccessesStop(answers[..needed], i);
          assert answers[..needed][..i] == answers[..i];
          break;
        }
        Put(answers[i].value);
        i := i + 1;
        SuccessesGrow(answers[..i]);
        assert answers[..i][..i - 1] == answers[..i - 1];
      }
      Leave();
    }
  }

  /** The nonces minted before the first failure. */
  function Successes(answers: seq<Option<Nonce>>): seq<Nonce> {
    if answers == [] || answers[0].None? then [] else [answers[0].value] + Successes(answers[1..])
  }

  /** They are the answers' nonces in order, up to the first answer that is none. */
  lemma {:induction false} SuccessesExactly(answers: seq<Option<Nonce>>)
    ensures var got := Successes(answers);
      && |got| <= |answers|
      && (forall i :: 0 <= i < |got| ==> answers[i] == Some(got[i]))
      && (|got| < |answers| ==> answers[|got|].None?)
  {
    if answers != [] && answers[0].Some? {
      SuccessesExactly(answers[1..]);
    }
  }

  lemma {:induction false} SuccessesGrow(answers: seq<Option<Nonce>>)
    requires answers != [] && forall j :: 0 <= j < |answers| ==> answers[j].Some?
    ensures Successes(answers) == Successes(answers[..|answers| - 1]) + [answers[|answers| - 1].value]
  {
    if |answers| > 1 {
      SuccessesGrow(answers[1..]);
      assert answers[1..][..|answers| - 2] == answers[..|answers| - 1][1..];
    } else {
      assert answers[1..] == [];
    }
  }

  lemma {:induction false} SuccessesStop(answers: seq<Option<Nonce>>, i: nat)
    requires i < |answers| && answers[i].None?
    requires forall j :: 0 <= j < i ==> answers[j].Some?
    ensures Successes(answers) == Successes(answers[..i])
  {
    if i > 0 {
      SuccessesStop(answers[1..], i - 1);
      assert answers[1..][..i - 1] == answers[..i][1..];
    }
  }

  // ------------------------------------------------------------ the steps

  predicate Enabled(s: State, ev: Event) {
    match ev
    case Call => true
    case Spawn => true
    case Look(t) => t < |s.threads| && s.threads[t].MintEntry?
    case Mint(t, _) => t < |s.threads| && (s.threads[t].MintOnDemand? || s.threads[t].FillMint?)
    case Return(t) => t < |s.threads| && s.threads[t].MintReturn?
    case Enter(t) => t < |s.threads| && s.threads[t].FillEntry?
    case Append(t) => t < |s.threads| && s.threads[t].FillAppend?
    case Exit(t) => t < |s.threads| && s.threads[t].FillExit?
  }

  function Move(s: State, t: nat, pc: Thread): State
    requires t < |s.threads|
  {
    s.(threads := s.threads[t := pc])
  }

  /** The loop test of replenish: mint again or leave. */
  function LoopHead(needed: int, done: nat): Thread {
    if done < needed then FillMint(needed, done) else FillExit
  }

  function Step(poolSize: nat, s: State, ev: Event): State
    requires Enabled(s, ev)
  {
    match ev
    case Call => s.(threads := s.threads + [MintEntry])
    case Spawn => s.(threads := s.threads + [FillEntry])
    case Look(t) =>
      var (rest, nonce, replenish) := Taken(poolSize, s.pool);
      Move(s.(pool := rest), t, if nonce.None? then MintOnDemand else MintReturn(nonce.value, replenish))
    case Mint(t, answer) =>
      if answer.None? then Move(s, t, if s.threads[t].MintOnDemand? then Done else FillExit)
      else
        var minted := s.(minted := s.minted + [answer.value]);
        Move(minted, t, if s.threads[t].MintOnDemand? then MintReturn(answer.value, true)
                        else FillAppend(s.threads[t].needed, s.threads[t].done, answer.value))
    case Return(t) =>
      var issued := Move(s.(issued := s.issued + [s.threads[t].nonce]), t, Done);
      if s.threads[t].replenish then issued.(threads := issued.threads + [FillEntry]) else issued
    case Enter(t) =>
      if s.minting then Move(s, t, Done)
      else Move(s.(minting := true), t, LoopHead(poolSize - |s.pool|, 0))
    case Append(t) =>
      Move(s.(pool := s.pool + [s.threads[t].nonce]), t, LoopHead(s.threads[t].needed, s.threads[t].done + 1))
    case Exit(t) => Move(s.(minting := false), t, Done)
  }

  /** These steps, one after the other, lead from s to s'. */
  ghost predicate Leads(poolSize: nat, s: State, events: seq<Event>, s': State) {
    if events == [] then s' == s
    else
      var last := events[|events| - 1];
      exists before ::
        && Leads(poolSize, s, events[..|events| - 1], before)
        && Enabled(before, last) && s' == Step(poolSize, before, last)
  }

  /** A call that finds a ready nonce issues the last one, and starts one replenisher exactly when fewer than a quarter
      of the pool size are left. */
  lemma ReadyNonceIsIssued(poolSize: nat, s: State, t: nat)
    requires Enabled(s, Look(t)) && s.pool != []
    ensures var looked := Step(poolSize, s, Look(t));
      && Enabled(looked, Return(t))
      && var returned := Step(poolSize, looked, Return(t));
      && returned.pool + [s.pool[|s.pool| - 1]] == s.pool
      && returned.issued == s.issued + [s.pool[|s.pool| - 1]] && returned.minted == s.minted
      && returned.minting == s.minting
      && returned.threads ==
           s.threads[t := Done] + if |s.pool| - 1 < poolSize / 4 then [FillEntry] else []
  {
    var looked := Step(poolSize, s, Look(t));
    assert looked.threads[t := Done] == s.threads[t := Done];
  }

  /** The steps of a replenisher that runs with nothing between them, given what it mints. */
  function FillSteps(t: nat, answers: seq<Nonce>): seq<Event> {
    if answers == [] then []
    else FillSteps(t, answers[..|answers| - 1]) + [Mint(t, Some(answers[|answers| - 1])), Append(t)]
  }

  lemma LeadsOn(poolSize: nat, s: State, events: seq<Event>, before: State, ev: Event)
    requires Leads(poolSize, s, events, before) && Enabled(before, ev)
    ensures Leads(poolSize, s, events + [ev], Step(poolSize, before, ev))
  {
    hide Step;
    var all := events + [ev];
    assert all[..|all| - 1] == events && all[|all| - 1] == ev;
    assert Leads(poolSize, s, all[..|all| - 1], before) && Enabled(before, all[|all| - 1]);
  }

  lemma LeadsNowhere(poolSize: nat, s: State)
    ensures Leads(poolSize, s, [], s)
  {
  }

  lemma EnterSteps(poolSize: nat, s: State, t: nat)
    requires Enabled(s, Enter(t)) && !s.minting
    ensures Leads(poolSize, s, [Enter(t)], Step(poolSize, s, Enter(t)))
    ensures Step(poolSize, s, Enter(t)) ==
            s.(minting := true, threads := s.threads[t := LoopHead(poolSize - |s.pool|, 0)])
  {
    hide Leads;
    LeadsNowhere(poolSize, s);
    LeadsOn(poolSize, s, [], s, Enter(t));
    assert [] + [Enter(t)] == [Enter(t)];
  }

  lemma MintAndAppend(poolSize: nat, s: State, t: nat, n: Nonce)
    requires t < |s.threads| && s.threads[t].FillMint?
    ensures Enabled(s, Mint(t, Some(n)))
    ensures var minted := Step(poolSize, s, Mint(t, Some(n)));
      && Enabled(minted, Append(t))
      && Step(poolSize, minted, Append(t)) ==
         State(s.pool + [n], s.minting,
               s.threads[t := LoopHead(s.threads[t].needed, s.threads[t].done + 1)], s.minted + [n], s.issued)
  {
  }

  // After minting and appending some of what the pool lacked.
  lemma {:induction false} FillsSome(poolSize: nat, s: State, t: nat, answers: seq<Nonce>) returns (filled: State)
    requires Enabled(s, Enter(t)) && !s.minting
    requires |answers| <= Max(0, poolSize - |s.pool|)
    ensures Leads(poolSize, s, [Enter(t)] + FillSteps(t, answers), filled)
    ensures filled == State(
      s.pool + answers, true, s.threads[t := LoopHead(poolSize - |s.pool|, |answers|)], s.minted + answers, s.issued)
  {
    hide Step, Leads;
    if answers == [] {
      filled := Step(poolSize, s, Enter(t));
      EnterSteps(poolSize, s, t);
      assert [Enter(t)] + FillSteps(t, answers) == [Enter(t)];
    } else {
      var init, last := answers[..|answers| - 1], answers[|answers| - 1];
      var steps := [Enter(t)] + FillSteps(t, init);
      var before := FillsSome(poolSize, s, t, init);
      var minted := Step(poolSize, before, Mint(t, Some(last)));
      MintAndAppend(poolSize, before, t, last);
      LeadsOn(poolSize, s, steps, before, Mint(t, Some(last)));
      LeadsOn(poolSize, s, steps + [Mint(t, Some(last))], minted, Append(t));
      filled := Step(poolSize, minted, Append(t));
      assert steps + [Mint(t, Some(last))] + [Append(t)] == [Enter(t)] + FillSteps(t, answers);
      assert answers == init + [last];
    }
  }

  /** A replenisher that finds the flag clear mints exactly what the pool lacks, if minting does not fail, and leaves
      the pool full and the flag clear. */
  lemma ReplenisherFills(poolSize: nat, s: State, t: nat, answers: seq<Nonce>) returns (full: State)
    requires Enabled(s, Enter(t)) && !s.minting
    requires |answers| == Max(0, poolSize - |s.pool|)
    ensures Leads(poolSize, s, [Enter(t)] + FillSteps(t, answers) + [Exit(t)], full)
    ensures full == s.(pool := s.pool + answers, minted := s.minted + answers, threads := s.threads[t := Done])
    ensures |full.pool| == Max(|s.pool|, poolSize)
  {
    hide Leads, FillSteps;
    var filled := FillsSome(poolSize, s, t, answers);
    LeadsOn(poolSize, s, [Enter(t)] + FillSteps(t, answers), filled, Exit(t));
    full := Step(poolSize, filled, Exit(t));
    assert filled.threads[t := Done] == s.threads[t := Done];
  }

  /** One that finds none mints for itself: a nonce minted is issued and a replenisher started, and on failure nothing
      is. */
  lemma EmptyPoolMints(poolSize: nat, s: State, t: nat, answer: Option<Nonce>)
    requires Enabled(s, Look(t)) && s.pool == []
    ensures var looked := Step(poolSize, s, Look(t));
      && Enabled(looked, Mint(t, answer))
      && var minted := Step(poolSize, looked, Mint(t, answer));
      && (answer.None? ==> minted == s.(threads := s.threads[t := Done]))
      && (answer.Some? ==>
            && Enabled(minted, Return(t))
            && Step(poolSize, minted, Return(t)) ==
               s.(threads := s.threads[t := Done] + [FillEntry],
                  minted := s.minted + [answer.value], issued := s.issued + [answer.value]))
  {
    var looked := Step(poolSize, s, Look(t));
    var minted := Step(poolSize, looked, Mint(t, answer));
    assert minted.threads[t := Done] == s.threads[t := Done];
    if answer.None? {
      assert minted.threads == s.threads[t := Done];
    }
  }

  /** NewUTXONoncePool: an empty pool and one replenish goroutine. */
  const START := State([], false, [FillEntry], [], [])

  ghost predicate Reachable(poolSize: nat, events: seq<Event>, s: State) {
    Leads(poolSize, START, events, s)
  }

  // ------------------------------------------------------- what is kept

  /** Between setting the minting flag and clearing it. */
  predicate Filling(pc: Thread) {
    pc.FillMint? || pc.FillAppend? || pc.FillExit?
  }

  /** At most one thread fills, and exactly then the flag is set. */
  ghost predicate MutualExclusion(minting: bool, threads: seq<Thread>) {
    && (forall i, j :: 0 <= i < j < |threads| ==> !(Filling(threads[i]) && Filling(threads[j])))
    && (minting <==> exists i :: 0 <= i < |threads| && Filling(threads[i]))
  }

  /** What a filling thread still means to append fits beside the n nonces pooled. */
  predicate Fits(poolSize: nat, n: nat, pc: Thread) {
    pc.FillMint? || pc.FillAppend? ==> pc.done < pc.needed && n + pc.needed - pc.done <= poolSize
  }

  ghost predicate RoomLeft(poolSize: nat, n: nat, threads: seq<Thread>) {
    n <= poolSize && forall i :: 0 <= i < |threads| ==> Fits(poolSize, n, threads[i])
  }

  /** How often n occurs in a list. */
  function Times(ns: seq<Nonce>, n: Nonce): nat {
    if ns == [] then 0 else Times(ns[..|ns| - 1], n) + if ns[|ns| - 1] == n then 1 else 0
  }

  function HeldBy(pc: Thread, n: Nonce): nat {
    if (pc.MintReturn? || pc.FillAppend?) && pc.nonce == n then 1 else 0
  }

  /** How many threads hold n. */
  function InFlight(threads: seq<Thread>, n: Nonce): nat {
    if threads == [] then 0 else InFlight(threads[..|threads| - 1], n) + HeldBy(threads[|threads| - 1], n)
  }

  /** Each time n was minted it went to the pool, a thread or a client, and to one of these only. */
  ghost predicate Conserved(s: State, n: Nonce) {
    Times(s.minted, n) == Times(s.pool, n) + InFlight(s.threads, n) + Times(s.issued, n)
  }

  lemma TimesAppend(ns: seq<Nonce>, m: Nonce, n: Nonce)
    ensures Times(ns + [m], n) == Times(ns, n) + if m == n then 1 else 0
  {
    assert (ns + [m])[..|ns|] == ns;
  }

  lemma {:induction false} TimesIsMembership(ns: seq<Nonce>, n: Nonce)
    ensures Times(ns, n) > 0 <==> n in ns
  {
    if ns != [] {
      TimesIsMembership(ns[..|ns| - 1], n);
    }
  }

  lemma {:induction false} InFlightMove(threads: seq<Thread>, t: nat, pc: Thread, n: Nonce)
    requires t < |threads|
    ensures InFlight(threads[t := pc], n) == InFlight(threads, n) - HeldBy(threads[t], n) + HeldBy(pc, n)
  {
    var last := |threads| - 1;
    if t < last {
      InFlightMove(threads[..last], t, pc, n);
      assert threads[t := pc][..last] == threads[..last][t := pc];
    } else {
      assert threads[t := pc][..last] == threads[..last];
    }
  }

  lemma InFlightStart(threads: seq<Thread>, pc: Thread, n: Nonce)
    ensures InFlight(threads + [pc], n) == InFlight(threads, n) + HeldBy(pc, n)
  {
    assert (threads + [pc])[..|threads|] == threads;
  }

  // Moving a thread without crossing the section's border changes nothing.
  lemma ExclusionMove(minting: bool, threads: seq<Thread>, t: nat, pc: Thread)
    requires MutualExclusion(minting, threads) && t < |threads|
    requires Filling(pc) <==> Filling(threads[t])
    ensures MutualExclusion(minting, threads[t := pc])
  {
    if minting {
      var i :| 0 <= i < |threads| && Filling(threads[i]);
      assert Filling(threads[t := pc][i]);
    }
  }

  lemma ExclusionStart(minting: bool, threads: seq<Thread>, pc: Thread)
    requires MutualExclusion(minting, threads) && !Filling(pc)
    ensures MutualExclusion(minting, threads + [pc])
  {
    if minting {
      var i :| 0 <= i < |threads| && Filling(threads[i]);
      assert Filling((threads + [pc])[i]);
    }
  }

  lemma ExclusionEnter(threads: seq<Thread>, t: nat, pc: Thread)
    requires MutualExclusion(false, threads) && t < |threads| && Filling(pc)
    ensures MutualExclusion(true, threads[t := pc])
  {
    assert Filling(threads[t := pc][t]);
  }

  lemma ExclusionExit(threads: seq<Thread>, t: nat, pc: Thread)
    requires MutualExclusion(true, threads) && t < |threads| && Filling(threads[t]) && !Filling(pc)
    ensures MutualExclusion(false, threads[t := pc])
  {
  }

  lemma StepKeepsExclusion(poolSize: nat, s: State, ev: Event)
    requires MutualExclusion(s.minting, s.threads) && Enabled(s, ev)
    ensures MutualExclusion(Step(poolSize, s, ev).minting, Step(poolSize, s, ev).threads)
  {
    match ev
    case Call => ExclusionStart(s.minting, s.threads, MintEntry);
    case Spawn => ExclusionStart(s.minting, s.threads, FillEntry);
    case Enter(t) =>
      if s.minting {
        ExclusionMove(s.minting, s.threads, t, Done);
      } else {
        ExclusionEnter(s.threads, t, LoopHead(poolSize - |s.pool|, 0));
      }
    case Exit(t) =>
      assert s.minting;
      ExclusionExit(s.threads, t, Done);
    case Return(t) =>
      ExclusionMove(s.minting, s.threads, t, Done);
      ExclusionStart(s.minting, s.threads[t := Done], FillEntry);
    case _ =>
      ExclusionMove(s.minting, s.threads, ev.t, Step(poolSize, s, ev).threads[ev.t]);
  }

  lemma RoomMove(poolSize: nat, n: nat, n': nat, threads: seq<Thread>, t: nat, pc: Thread)
    requires RoomLeft(poolSize, n, threads) && t < |threads|
    requires n' <= n && Fits(poolSize, n', pc)
    ensures RoomLeft(poolSize, n', threads[t := pc])
  {
  }

  // The one filling thread appends: no other thread counts on the room it takes.
  lemma RoomAppend(poolSize: nat, n: nat, threads: seq<Thread>, t: nat)
    requires RoomLeft(poolSize, n, threads) && t < |threads| && threads[t].FillAppend?
    requires MutualExclusion(true, threads)
    ensures RoomLeft(poolSize, n + 1, threads[t := LoopHead(threads[t].needed, threads[t].done + 1)])
  {
    assert Filling(threads[t]) && Fits(poolSize, n, threads[t]);
  }

  lemma StepKeepsRoom(poolSize: nat, s: State, ev: Event)
    requires MutualExclusion(s.minting, s.threads) && Enabled(s, ev)
    requires RoomLeft(poolSize, |s.pool|, s.threads)
    ensures RoomLeft(poolSize, |Step(poolSize, s, ev).pool|, Step(poolSize, s, ev).threads)
  {
    var s' := Step(poolSize, s, ev);
    match ev
    case Call =>
    case Spawn =>
    case Return(t) => RoomMove(poolSize, |s.pool|, |s.pool|, s.threads, t, Done);
    case Append(t) =>
      assert Filling(s.threads[t]);
      RoomAppend(poolSize, |s.pool|, s.threads, t);
    case Mint(t, _) =>
      assert Fits(poolSize, |s.pool|, s.threads[t]);
      RoomMove(poolSize, |s.pool|, |s.pool|, s.threads, t, s'.threads[t]);
    case _ => RoomMove(poolSize, |s.pool|, |s'.pool|, s.threads, ev.t, s'.threads[ev.t]);
  }

  // One thread moves; what it gives up or gains balances the three lists.
  lemma Balanced(s: State, s': State, t: nat, n: Nonce)
    requires Conserved(s, n) && t < |s.threads| && t < |s'.threads|
    requires s'.threads == s.threads[t := s'.threads[t]]
    requires Times(s'.minted, n) - Times(s.minted, n) ==
             Times(s'.pool, n) - Times(s.pool, n) + HeldBy(s'.threads[t], n) - HeldBy(s.threads[t], n)
             + Times(s'.issued, n) - Times(s.issued, n)
    ensures Conserved(s', n)
  {
    InFlightMove(s.threads, t, s'.threads[t], n);
  }

  lemma MintConserves(poolSize: nat, s: State, t: nat, answer: Option<Nonce>, n: Nonce)
    requires Conserved(s, n) && Enabled(s, Mint(t, answer))
    ensures Conserved(Step(poolSize, s, Mint(t, answer)), n)
  {
    if answer.Some? {
      TimesAppend(s.minted, answer.value, n);
    }
    Balanced(s, Step(poolSize, s, Mint(t, answer)), t, n);
  }

  lemma ReturnConserves(poolSize: nat, s: State, t: nat, n: Nonce)
    requires Conserved(s, n) && Enabled(s, Return(t))
    ensures Conserved(Step(poolSize, s, Return(t)), n)
  {
    hide Times, InFlight;
    TimesAppend(s.issued, s.threads[t].nonce, n);
    Balanced(s, Move(s.(issued := s.issued + [s.threads[t].nonce]), t, Done), t, n);
    InFlightStart(s.threads[t := Done], FillEntry, n);
  }

  lemma LookConserves(poolSize: nat, s: State, t: nat, n: Nonce)
    requires Conserved(s, n) && Enabled(s, Look(t))
    ensures Conserved(Step(poolSize, s, Look(t)), n)
  {
    var (rest, nonce, _) := Taken(poolSize, s.pool);
    if nonce.Some? {
      TimesAppend(rest, nonce.value, n);
    }
    Balanced(s, Step(poolSize, s, Look(t)), t, n);
  }

  lemma AppendConserves(poolSize: nat, s: State, t: nat, n: Nonce)
    requires Conserved(s, n) && Enabled(s, Append(t))
    ensures Conserved(Step(poolSize, s, Append(t)), n)
  {
    TimesAppend(s.pool, s.threads[t].nonce, n);
    Balanced(s, Step(poolSize, s, Append(t)), t, n);
  }

  lemma StepConserves(poolSize: nat, s: State, ev: Event, n: Nonce)
    requires Conserved(s, n) && Enabled(s, ev)
    ensures Conserved(Step(poolSize, s, ev), n)
  {
    match ev
    case Call => InFlightStart(s.threads, MintEntry, n);
    case Spawn => InFlightStart(s.threads, FillEntry, n);
    case Look(t) => LookConserves(poolSize, s, t, n);
    case Mint(t, answer) => MintConserves(poolSize, s, t, answer, n);
    case Return(t) => ReturnConserves(poolSize, s, t, n);
    case Append(t) => AppendConserves(poolSize, s, t, n);
    case Enter(t) => Balanced(s, Step(poolSize, s, ev), t, n);
    case Exit(t) => Balanced(s, Step(poolSize, s, ev), t, n);
  }

  /** In every interleaving: one filler at a time, never more than poolSize nonces pooled, and none lost or doubled. */
  lemma {:induction false} EveryInterleaving(poolSize: nat, events: seq<Event>, s: State, n: Nonce)
    requires Reachable(poolSize, events, s)
    ensures MutualExclusion(s.minting, s.threads)
    ensures RoomLeft(poolSize, |s.pool|, s.threads)
    ensures Conserved(s, n)
  {
    if events == [] {
      assert !Filling(START.threads[0]);
      InFlightStart([], FillEntry, n);
      assert START.threads == [] + [FillEntry];
    } else {
      var init, last := events[..|events| - 1], events[|events| - 1];
      var before :| Reachable(poolSize, init, before) && Enabled(before, last) && s == Step(poolSize, before, last);
      EveryInterleaving(poolSize, init, before, n);
      StepKeepsExclusion(poolSize, before, last);
      StepKeepsRoom(poolSize, before, last);
      StepConserves(poolSize, before, last, n);
    }
  }

  /** A nonce the provider mints only once is issued at most once, and once issued is neither pooled nor held. */
  lemma NoDoubleIssue(poolSize: nat, events: seq<Event>, s: State, n: Nonce)
    requires Reachable(poolSize, events, s) && Times(s.minted, n) <= 1
    ensures Times(s.issued, n) + Times(s.pool, n) + InFlight(s.threads, n) <= 1
    ensures n in s.issued ==> n !in s.pool && InFlight(s.threads, n) == 0
  {
    EveryInterleaving(poolSize, events, s, n);
    TimesIsMembership(s.issued, n);
    TimesIsMembership(s.pool, n);
  }
}
