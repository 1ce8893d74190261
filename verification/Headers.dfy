/** Block headers, their proof of work and chains of them (internal/headers/pow.go). */
module Headers {
  import opened Numbers
  import opened Wrappers
  import opened Pow

  datatype Header = Header(
    version: uint32, prev: Hash, merkleRoot: Hash, timestamp: uint32, bits: uint32, nonce: uint32)

  /** Double SHA-256 of the serialized header. The model never looks inside it. */
  type HashFn = Header -> Hash

  datatype HeaderError =
    | WrongStart
    | TipMissing
    | PrevMismatch(index: nat)
    | BadPow(index: nat)
    | RollbackTooHigh
    | HeaderMissing

  const TWO_TO_THE_256: int := 0x1_0000_0000_0000_0000_0000_0000_0000_0000_0000_0000_0000_0000_0000_0000_0000_0000

  // ------------------------------------------------------------- hashToBig

  lemma {:induction false} ReversedValue(b: seq<byte>)
    ensures FromBigEndian(Reversed(b)) == FromLittleEndian(b)
  {
    if |b| > 0 {
      ReversedValue(b[1..]);
      assert Reversed(b)[..|b| - 1] == Reversed(b[1..]);
    }
  }

  method HashToBig(hash: Hash) returns (n: nat)
    ensures n == FromLittleEndian(hash)
  {
    var buf := new byte[32];
    for i := 0 to 32
      invariant forall j :: 0 <= j < i ==> buf[j] == hash[31 - j]
    {
      buf[i] := hash[31 - i];
    }
    assert buf[..] == Reversed(hash);
    ReversedValue(hash);
    n := FromBigEndian(buf[..]);
  }

  // --------------------------------------------------- proof of work, work

  /** A hash value is good enough for a compact target. */
  predicate Passes(bits: uint32, v: nat) {
    var target := CompactToBig(bits);
    target > 0 && v <= target
  }

  /** ValidatePoW: the hash, as a number, does not exceed a positive target. */
  predicate MeetsTarget(hash: HashFn, hdr: Header) {
    Passes(hdr.bits, FromLittleEndian(hash(hdr)))
  }

  method ValidatePow(hash: HashFn, hdr: Header) returns (ok: bool)
    ensures ok <==> 0 < CompactToBig(hdr.bits) && FromLittleEndian(hash(hdr)) <= CompactToBig(hdr.bits)
    ensures ok <==> MeetsTarget(hash, hdr)
  {
    var target := CompactToBig(hdr.bits);
    if target <= 0 {
      return false;
    }
    var hashInt := HashToBig(hash(hdr));
    return hashInt <= target;
  }

  function Quotient(n: nat, d: nat): nat
    requires d > 0
  {
    n / d
  }

  /** WorkForHeader */
  function Work(hdr: Header): nat {
    var target := CompactToBig(hdr.bits);
    if target <= 0 then 0 else Quotient(TWO_TO_THE_256, target + 1)
  }

  lemma QuotientBracket(n: nat, d: nat)
    requires d > 0
    ensures Quotient(n, d) * d <= n < (Quotient(n, d) + 1) * d
  {
    assert (Quotient(n, d) + 1) * d == Quotient(n, d) * d + d;
  }

  /** Work is the number of disjoint runs of target + 1 hash values among the 2^256. */
  lemma WorkIsQuotient(hdr: Header)
    requires CompactToBig(hdr.bits) > 0
    ensures Work(hdr) * (CompactToBig(hdr.bits) + 1) <= TWO_TO_THE_256
    ensures TWO_TO_THE_256 < (Work(hdr) + 1) * (CompactToBig(hdr.bits) + 1)
  {
    QuotientBracket(TWO_TO_THE_256, CompactToBig(hdr.bits) + 1);
  }

  /** The values below n that pass a compact target. */
  ghost function PassingBelow(bits: uint32, n: nat): set<nat> {
    set v: nat | 0 <= v < n && Passes(bits, v)
  }

  /** A positive target t lets through the values 0 to t, which are t + 1 of the 2^256; another target lets through
      none. */
  lemma {:induction false} PassingBelowCount(bits: uint32, n: nat)
    ensures |PassingBelow(bits, n)| == if CompactToBig(bits) <= 0 then 0 else Min(CompactToBig(bits) + 1, n)
  {
    hide CompactToBig;
    if n > 0 {
      PassingBelowCount(bits, n - 1);
      if Passes(bits, n - 1) {
        assert PassingBelow(bits, n) == PassingBelow(bits, n - 1) + {n - 1};
      } else {
        assert PassingBelow(bits, n) == PassingBelow(bits, n - 1);
      }
    }
  }

  /** Every hash is one of the 2^256 values, and every value is some hash. */
  lemma HashesAreValues(h: Hash, v: nat)
    requires v < TWO_TO_THE_256
    ensures FromLittleEndian(h) < TWO_TO_THE_256
    ensures FromLittleEndian(ToLittleEndian(v, 32)) == v
  {
    LittleEndianBound(h);
    HashSpace();
    LittleEndianRoundTrip(v, 32);
  }

  lemma HashSpace()
    ensures Shift(1, 32) == TWO_TO_THE_256
  {
    EightBytes(0);
    EightBytes(8);
    EightBytes(16);
    EightBytes(24);
    assert Shift(1, 0) == 1;
  }

  lemma EightBytes(k: nat)
    ensures Shift(1, k + 8) == 0x1_0000_0000_0000_0000 * Shift(1, k)
  {
    var n := Shift(1, k);
    ShiftTwice(1, k, 8);
    assert Shift(n, 1) == 0x100 * n;
    assert Shift(n, 3) == 0x1_0000 * Shift(n, 1);
    assert Shift(n, 5) == 0x1_0000 * Shift(n, 3);
    assert Shift(n, 7) == 0x1_0000 * Shift(n, 5);
  }

  /** The work of a header is the number of hashes it takes on average to find one that passes, rounded down: the
      values there are, divided by those that pass. A target nothing passes is worth no work, nor is one above all
      hashes. */
  lemma WorkIsExpectedHashes(hdr: Header)
    ensures CompactToBig(hdr.bits) <= 0 ==> Work(hdr) == 0
    ensures CompactToBig(hdr.bits) >= TWO_TO_THE_256 ==> Work(hdr) == 0
    ensures 0 < CompactToBig(hdr.bits) < TWO_TO_THE_256 ==>
      var passing := |PassingBelow(hdr.bits, TWO_TO_THE_256)|;
      Work(hdr) * passing <= TWO_TO_THE_256 < (Work(hdr) + 1) * passing
  {
    hide CompactToBig, PassingBelow;
    if 0 < CompactToBig(hdr.bits) {
      PassingBelowCount(hdr.bits, TWO_TO_THE_256);
      WorkIsQuotient(hdr);
    }
  }

  /** The work of a run of headers. */
  function TotalWork(headers: seq<Header>): nat {
    if headers == [] then 0 else TotalWork(headers[..|headers| - 1]) + Work(headers[|headers| - 1])
  }

  lemma {:induction false} TotalWorkConcat(a: seq<Header>, b: seq<Header>)
    ensures TotalWork(a + b) == TotalWork(a) + TotalWork(b)
  {
    if b == [] {
      assert a + b == a;
    } else {
      TotalWorkConcat(a, b[..|b| - 1]);
      assert (a + b)[..|a + b| - 1] == a + b[..|b| - 1];
    }
  }

  method CumulativeWork(headers: seq<Header>) returns (total: nat)
    ensures total == TotalWork(headers)
  {
    total := 0;
    for i := 0 to |headers|
      invariant total == TotalWork(headers[..i])
    {
      total := total + Work(headers[i]);
      assert headers[..i + 1][..i] == headers[..i];
    }
    assert headers[..|headers|] == headers;
  }

  // ------------------------------------------------------ validated chains

  /** The hash the i-th header of a run must name as its predecessor. */
  function PrevOf(hash: HashFn, prev: Hash, headers: seq<Header>, i: nat): Hash
    requires i <= |headers|
  {
    if i == 0 then prev else hash(headers[i - 1])
  }

  /** The i-th header names its predecessor and, unless that test is off, meets its own target. */
  ghost predicate AcceptableAt(hash: HashFn, skipPow: bool, prev: Hash, headers: seq<Header>, i: nat)
    requires i < |headers|
  {
    headers[i].prev == PrevOf(hash, prev, headers, i) && (skipPow || MeetsTarget(hash, headers[i]))
  }

  /** What a header chain must satisfy to be accepted after a block with hash prev. */
  ghost predicate Acceptable(hash: HashFn, skipPow: bool, prev: Hash, headers: seq<Header>) {
    forall i :: 0 <= i < |headers| ==> AcceptableAt(hash, skipPow, prev, headers, i)
  }

  /** Acceptance, written out: every header names the one before it and its hash value does not exceed its own positive
      target. */
  lemma AcceptableMeans(hash: HashFn, skipPow: bool, prev: Hash, headers: seq<Header>)
    ensures Acceptable(hash, skipPow, prev, headers) <==>
      && (headers != [] ==> headers[0].prev == prev)
      && (forall i :: 0 < i < |headers| ==> headers[i].prev == hash(headers[i - 1]))
      && (!skipPow ==> forall hdr :: hdr in headers ==>
            0 < CompactToBig(hdr.bits) && FromLittleEndian(hash(hdr)) <= CompactToBig(hdr.bits))
  {
    hide CompactToBig, FromLittleEndian;
    if Acceptable(hash, skipPow, prev, headers) {
      assert headers != [] ==> AcceptableAt(hash, skipPow, prev, headers, 0);
      forall i | 0 < i < |headers|
        ensures headers[i].prev == hash(headers[i - 1])
      {
        assert AcceptableAt(hash, skipPow, prev, headers, i);
      }
      forall hdr | hdr in headers
        ensures skipPow || MeetsTarget(hash, hdr)
      {
        var i :| 0 <= i < |headers| && headers[i] == hdr;
        assert AcceptableAt(hash, skipPow, prev, headers, i);
      }
    } else {
      var i: nat :| i < |headers| && !AcceptableAt(hash, skipPow, prev, headers, i);
      assert headers[i] in headers;
    }
  }

  lemma SamePrefix(hash: HashFn, skipPow: bool, prev: Hash, a: seq<Header>, b: seq<Header>, i: nat)
    requires i < |a| <= |b| && b[..|a|] == a
    ensures AcceptableAt(hash, skipPow, prev, a, i) <==> AcceptableAt(hash, skipPow, prev, b, i)
  {
    assert a[i] == b[i] && (i > 0 ==> a[i - 1] == b[i - 1]);
  }

  lemma AcceptableStep(hash: HashFn, skipPow: bool, prev: Hash, headers: seq<Header>, i: nat)
    requires i < |headers|
    ensures Acceptable(hash, skipPow, prev, headers[..i + 1])
       <==> Acceptable(hash, skipPow, prev, headers[..i]) && AcceptableAt(hash, skipPow, prev, headers, i)
  {
    var a, b := headers[..i], headers[..i + 1];
    forall j | 0 <= j < i
      ensures AcceptableAt(hash, skipPow, prev, a, j) <==> AcceptableAt(hash, skipPow, prev, b, j)
    {
      SamePrefix(hash, skipPow, prev, a, b, j);
    }
    SamePrefix(hash, skipPow, prev, b, headers, i);
  }

  lemma AcceptablePrefix(hash: HashFn, skipPow: bool, prev: Hash, headers: seq<Header>, i: nat)
    requires i <= |headers| && Acceptable(hash, skipPow, prev, headers)
    ensures Acceptable(hash, skipPow, prev, headers[..i])
    ensures i < |headers| ==> AcceptableAt(hash, skipPow, prev, headers, i)
  {
    forall j | 0 <= j < i
      ensures AcceptableAt(hash, skipPow, prev, headers[..i], j)
    {
      SamePrefix(hash, skipPow, prev, headers[..i], headers, j);
    }
  }

  /** Where a run stops being acceptable: its first bad header. */
  ghost predicate FirstFault(hash: HashFn, skipPow: bool, prev: Hash, headers: seq<Header>, e: HeaderError) {
    match e
    case PrevMismatch(i) =>
      && i < |headers|
      && Acceptable(hash, skipPow, prev, headers[..i])
      && headers[i].prev != PrevOf(hash, prev, headers, i)
    case BadPow(i) =>
      && i < |headers| && !skipPow
      && Acceptable(hash, skipPow, prev, headers[..i])
      && headers[i].prev == PrevOf(hash, prev, headers, i)
      && !MeetsTarget(hash, headers[i])
    case _ => false
  }

  /** The fault, written out: the headers before it are acceptable, and it names the wrong predecessor, or the right one
      without a positive target that its hash value does not exceed. */
  lemma FirstFaultMeans(hash: HashFn, skipPow: bool, prev: Hash, headers: seq<Header>, e: HeaderError)
    requires FirstFault(hash, skipPow, prev, headers, e)
    ensures e.PrevMismatch? || e.BadPow?
    ensures e.index < |headers| && Acceptable(hash, skipPow, prev, headers[..e.index])
    ensures e.PrevMismatch? <==>
            headers[e.index].prev != if e.index == 0 then prev else hash(headers[e.index - 1])
    ensures e.BadPow? ==>
      var bits := headers[e.index].bits;
      !skipPow && (CompactToBig(bits) <= 0 || FromLittleEndian(hash(headers[e.index])) > CompactToBig(bits))
  {
    hide Acceptable, CompactToBig, FromLittleEndian;
  }

  lemma FaultRejects(hash: HashFn, skipPow: bool, prev: Hash, headers: seq<Header>, e: HeaderError)
    requires FirstFault(hash, skipPow, prev, headers, e)
    ensures !Acceptable(hash, skipPow, prev, headers)
  {
    if Acceptable(hash, skipPow, prev, headers) {
      AcceptablePrefix(hash, skipPow, prev, headers, e.index);
    }
  }

  method ValidateHeaderChain(hash: HashFn, headers: seq<Header>, expectedPrev: Hash)
      returns (r: Result<(), HeaderError>)
    ensures r.Success? <==>
      && (headers != [] ==> headers[0].prev == expectedPrev)
      && (forall i :: 0 < i < |headers| ==> headers[i].prev == hash(headers[i - 1]))
      && (forall hdr :: hdr in headers ==>
            0 < CompactToBig(hdr.bits) && FromLittleEndian(hash(hdr)) <= CompactToBig(hdr.bits))
    ensures r.Success? <==> Acceptable(hash, false, expectedPrev, headers)
    ensures r.Failure? ==> FirstFault(hash, false, expectedPrev, headers, r.error)
  {
    AcceptableMeans(hash, false, expectedPrev, headers);
    var prev := expectedPrev;
    for i := 0 to |headers|
      invariant prev == PrevOf(hash, expectedPrev, headers, i)
      invariant Acceptable(hash, false, expectedPrev, headers[..i])
    {
      if headers[i].prev != prev {
        FaultRejects(hash, false, expectedPrev, headers, PrevMismatch(i));
        return Failure(PrevMismatch(i));
      }
      var ok := ValidatePow(hash, headers[i]);
      if !ok {
        FaultRejects(hash, false, expectedPrev, headers, BadPow(i));
        return Failure(BadPow(i));
      }
      AcceptableStep(hash, false, expectedPrev, headers, i);
      prev := hash(headers[i]);
    }
    assert headers[..|headers|] == headers;
    return Success(());
  }
}
