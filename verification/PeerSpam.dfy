/** How far apart the spam warnings about one peer are (internal/gossip/manager_seed.go). */
module PeerSpam {
  import opened Wrappers
  import opened RateLimit

  ghost predicate InOrder(times: seq<real>) {
    forall i, j :: 0 <= i <= j < |times| ==> times[i] <= times[j]
  }

  /** A peer's record after messages at these times. */
  function PeerAfter(l: Limits, times: seq<real>): Option<PeerRate> {
    if times == [] then None
    else Some(PeerStep(l, PeerAfter(l, times[..|times| - 1]), times[|times| - 1]).0)
  }

  predicate RefusedAt(l: Limits, times: seq<real>, i: nat) {
    i < |times| && !PeerStep(l, PeerAfter(l, times[..i]), times[i]).1
  }

  predicate WarnedAt(l: Limits, times: seq<real>, i: nat) {
    i < |times| && PeerStep(l, PeerAfter(l, times[..i]), times[i]).2
  }

  /** How many of the messages from..until were refused. */
  function Refused(l: Limits, times: seq<real>, from: nat, until: nat): nat
    decreases until
  {
    if from >= until then 0
    else Refused(l, times, from, until - 1) + if RefusedAt(l, times, until - 1) then 1 else 0
  }

  // Since a warning no more drops are counted than there were, and the last warning is no older.
  lemma {:induction false} SinceReport(l: Limits, times: seq<real>, i: nat, n: nat)
    requires InOrder(times)
    requires i < n <= |times| && WarnedAt(l, times, i)
    ensures var p := PeerAfter(l, times[..n]);
      && p.Some? && p.value.lastWarnAt.Some? && p.value.lastWarnAt.value >= times[i]
      && p.value.dropCount <= Refused(l, times, i + 1, n)
    decreases n
  {
    hide Decide;
    assert times[..n][..n - 1] == times[..n - 1];
    if n > i + 1 {
      SinceReport(l, times, i, n - 1);
    }
  }

  /** Two spam warnings about one peer are more than ten minutes apart, and at least 200 messages of that peer are
      refused in between, the one that sets off the second included. */
  lemma ReportsAreSpaced(l: Limits, times: seq<real>, i: nat, j: nat)
    requires InOrder(times)
    requires i < j < |times| && WarnedAt(l, times, i) && WarnedAt(l, times, j)
    ensures times[j] - times[i] > 600.0
    ensures Refused(l, times, i + 1, j + 1) >= 200
  {
    hide Decide;
    SinceReport(l, times, i, j);
  }
}
