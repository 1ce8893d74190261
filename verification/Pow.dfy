/** Proof-of-work arithmetic of block headers (internal/headers/pow.go). */
module Pow {
  import opened Numbers

  // ---------------------------------------------------------- the codec

  /** The sign bit of a compact target. */
  predicate SignBit(c: uint32) {
    (c / 0x80_0000) % 2 == 1
  }

  /** The number a mantissa and an exponent byte denote. */
  function Scaled(mantissa: nat, exponent: nat): nat {
    if exponent <= 3 then Drop(mantissa, 3 - exponent) else Shift(mantissa, exponent - 3)
  }

  /** compactToBig */
  function CompactToBig(c: uint32): int {
    var magnitude: int := Scaled(c % 0x80_0000, c / 0x100_0000);
    if SignBit(c) then -magnitude else magnitude
  }

  /** The three most significant bytes of a byte string, as a number. */
  function Top3(b: seq<byte>): nat
    requires |b| >= 3
  {
    b[0] as int * 0x1_0000 + b[1] as int * 0x100 + b[2] as int
  }

  /** The 24-bit mantissa BigToCompact reads off the byte string b. */
  function RawMantissa(b: seq<byte>): (m: nat)
    ensures m < 0x100_0000
  {
    if |b| <= 3 then FromBigEndian(b) % 0x100_0000 / 0x100 else Top3(b)
  }

  function Compact(target: int): uint32 {
    var b := ToBigEndian(Abs(target));
    var m := RawMantissa(b);
    if target == 0 then 0
    else if m >= 0x80_0000 then ((|b| + 1) % 256) * 0x100_0000 + m / 0x100
    else (|b| % 256) * 0x100_0000 + m
  }

  /** Shifting a uint32 left by 24 bits keeps its low byte only. */
  function ShiftLeft24(size: uint32): uint32 {
    size * 0x100_0000 % TWO_TO_THE_32
  }

  lemma ShiftLeft24KeepsLowByte(n: nat, size: uint32)
    requires size == n % TWO_TO_THE_32
    ensures ShiftLeft24(size) == n % 256 * 0x100_0000
  {
    assert size % 256 == n % 256;
    assert size * 0x100_0000 == size / 256 * TWO_TO_THE_32 + size % 256 * 0x100_0000;
  }

  /** The sign bit of a 24-bit mantissa. */
  predicate MantissaSign(m: nat)
    requires m < 0x100_0000
    ensures MantissaSign(m) <==> m >= 0x80_0000
  {
    m / 0x80_0000 % 2 != 0
  }

  lemma {:induction false} PaddingKeepsValue(n: nat, b: seq<byte>)
    ensures FromBigEndian(seq(n, _ => 0 as byte) + b) == FromBigEndian(b)
  {
    var padded := seq(n, _ => 0 as byte) + b;
    if |b| > 0 {
      PaddingKeepsValue(n, b[..|b| - 1]);
      assert padded[..|padded| - 1] == seq(n, _ => 0 as byte) + b[..|b| - 1];
    } else if n > 0 {
      PaddingKeepsValue(n - 1, b);
      assert padded[..|padded| - 1] == seq(n - 1, _ => 0 as byte) + b;
    }
  }

  lemma {:induction false} BigEndianBound(b: seq<byte>)
    ensures FromBigEndian(b) < Shift(1, |b|)
  {
    if |b| > 0 {
      BigEndianBound(b[..|b| - 1]);
    }
  }

  lemma PaddedMantissa(b: seq<byte>)
    requires |b| <= 3
    ensures FromBigEndian(seq(4 - |b|, _ => 0 as byte) + b) == FromBigEndian(b) < 0x100_0000
  {
    PaddingKeepsValue(4 - |b|, b);
    BigEndianBound(b);
    ShiftGrows(1, |b|, 3);
    assert Shift(1, 3) == 0x100_0000;
  }

  method ReadMantissa(b: seq<byte>) returns (mantissa: nat)
    ensures mantissa == RawMantissa(b)
  {
    if |b| <= 3 {
      var padded := seq(4 - |b|, _ => 0 as byte) + b;
      PaddedMantissa(b);
      mantissa := FromBigEndian(padded) / 0x100;
    } else {
      mantissa := Top3(b);
    }
  }

  method BigToCompact(target: int) returns (c: uint32)
    ensures c == Compact(target)
  {
    if target == 0 {
      return 0;
    }
    var b := ToBigEndian(Abs(target));
    var size: uint32 := |b| % TWO_TO_THE_32;
    var mantissa := ReadMantissa(b);
    if MantissaSign(mantissa) {
      mantissa := mantissa / 0x100;
      size := Next(size);
      ShiftLeft24KeepsLowByte(|b| + 1, size);
    } else {
      ShiftLeft24KeepsLowByte(|b|, size);
    }
    c := ShiftLeft24(size) + mantissa;
  }

  // ------------------------------------------------ shapes of the words

  /** Every compact word is a signed scaled mantissa below 2^23. */
  lemma CompactParts(c: uint32) returns (m: nat, e: nat)
    ensures m < 0x80_0000 && e < 256
    ensures CompactToBig(c) == if SignBit(c) then -(Scaled(m, e) as int) else Scaled(m, e)
    ensures c == e * 0x100_0000 + (if SignBit(c) then 0x80_0000 else 0) + m
  {
    m, e := c % 0x80_0000, c / 0x100_0000;
    assert c / 0x80_0000 / 2 == e;
  }

  lemma ScaledMeans(m: nat, e: nat)
    ensures Shift(Scaled(m, e), 3) <= Shift(m, e) < Shift(Scaled(m, e) + 1, 3)
  {
    hide Shift, Drop;
    var n := Scaled(m, e);
    if e <= 3 {
      ShiftDrop(n, m, 3 - e);
      ShiftDrop(n + 1, m, 3 - e);
      ShiftTwice(n, 3 - e, e);
      ShiftTwice(n + 1, 3 - e, e);
      ShiftMonotone(Shift(n, 3 - e), m, e);
      ShiftMonotone(Shift(n + 1, 3 - e), m, e);
    } else {
      ShiftTwice(m, e - 3, 3);
      ShiftMonotone(n + 1, n, 3);
    }
  }

  /** What a word denotes: the low 23 bits times 256 to the power of the top byte is 256^3 times the target, which is
      rounded down to a whole number, and negative when bit 23 is set. */
  lemma CompactMeans(c: uint32)
    ensures Shift(Abs(CompactToBig(c)), 3) <= Shift(c % 0x80_0000, c / 0x100_0000) < Shift(Abs(CompactToBig(c)) + 1, 3)
    ensures CompactToBig(c) < 0 ==> c / 0x80_0000 % 2 == 1
    ensures CompactToBig(c) > 0 ==> c / 0x80_0000 % 2 == 0
  {
    hide Shift, Drop, Scaled;
    ScaledMeans(c % 0x80_0000, c / 0x100_0000);
  }

  lemma CompactFields(e: nat, m: nat)
    requires e < 256 && m < 0x80_0000
    ensures e * 0x100_0000 + m < TWO_TO_THE_32
    ensures CompactToBig(e * 0x100_0000 + m) == Scaled(m, e)
  {
    var c: uint32 := e * 0x100_0000 + m;
    assert c / 0x80_0000 == 2 * e;
    assert c % 0x80_0000 == m && c / 0x100_0000 == e;
  }

  lemma ScaledSmall(m: nat, e: nat)
    requires e <= 3
    ensures Scaled(m, e) <= m
  {
    ShiftDrop(Drop(m, 3 - e), m, 3 - e);
    ShiftGrows(Drop(m, 3 - e), 0, 3 - e);
  }

  /** The leading three bytes are the number without its low bytes. */
  lemma {:induction false} Top3IsDrop(t: nat)
    requires |ToBigEndian(t)| >= 3
    ensures Top3(ToBigEndian(t)) == Drop(t, |ToBigEndian(t)| - 3)
  {
    var b := ToBigEndian(t);
    var c := ToBigEndian(t / 256);
    if |b| == 3 {
      var d := ToBigEndian(t / 256 / 256);
      assert c == d + [t / 256 % 256];
      assert d == ToBigEndian(t / 256 / 256 / 256) + [t / 256 / 256 % 256];
      assert t / 256 / 256 / 256 == 0;
    } else {
      Top3IsDrop(t / 256);
      assert b[0] == c[0] && b[1] == c[1] && b[2] == c[2];
    }
  }

  /** The byte length of a number and its three leading bytes. */
  lemma LeadingBytes(t: nat) returns (size: nat)
    requires t >= 0x1_0000
    ensures size == |ToBigEndian(t)| >= 3
    ensures Top3(ToBigEndian(t)) == Drop(t, size - 3)
    ensures 0x1_0000 <= Drop(t, size - 3) < 0x100_0000
  {
    hide Shift, Drop, ToBigEndian, Top3;
    size := |ToBigEndian(t)|;
    BigEndianMagnitude(t);
    OneShiftMore(1, 0);
    OneShiftMore(1, 1);
    OneShiftMore(1, 2);
    if size < 3 {
      ShiftGrows(1, size, 2);
    }
    Top3IsDrop(t);
    ShiftTwice(1, 2, size - 3);
    ShiftTwice(1, 3, size - 3);
    ShiftDrop(0x1_0000, t, size - 3);
    ShiftDrop(0x100_0000, t, size - 3);
  }

  /** The length the compact form records: one more byte when the mantissa's sign bit would be set. */
  function EncodedSize(t: nat): nat {
    var b := ToBigEndian(t);
    |b| + if RawMantissa(b) >= 0x80_0000 then 1 else 0
  }

  /** The targets BigToCompact rounds down: four bytes or more, with a recorded length that fits its byte. */
  predicate Encodable(t: nat) {
    t == 0 || (t >= 0x100_0000 && EncodedSize(t) <= 255)
  }

  lemma FourBytes(t: nat)
    ensures t >= 0x100_0000 <==> |ToBigEndian(t)| >= 4
  {
    if t > 0 {
      var size := |ToBigEndian(t)|;
      BigEndianMagnitude(t);
      assert Shift(1, 3) == 0x100_0000;
      if size < 4 {
        ShiftGrows(1, size, 3);
      } else {
        ShiftGrows(1, 3, size - 1);
      }
    }
  }

  /** The mantissa that goes with the recorded length. */
  function EncodedMantissa(t: nat): (m: nat)
    ensures m < 0x80_0000
  {
    var raw := RawMantissa(ToBigEndian(t));
    if raw >= 0x80_0000 then raw / 0x100 else raw
  }

  lemma CompactWord(t: nat)
    requires t > 0 && EncodedSize(t) <= 255
    ensures Compact(t) == EncodedSize(t) * 0x100_0000 + EncodedMantissa(t)
    ensures CompactToBig(Compact(t)) == Scaled(EncodedMantissa(t), EncodedSize(t))
  {
    hide RawMantissa, ToBigEndian, CompactToBig, Scaled;
    CompactFields(EncodedSize(t), EncodedMantissa(t));
  }

  // An encodable target is encoded as the mantissa t >> 8k for the one k that
  // puts it between 2^15 and 2^23.
  lemma CompactShape(t: nat) returns (k: nat, m: nat)
    requires Encodable(t) && t != 0
    ensures 1 <= k <= 252 && 0x8000 <= m < 0x80_0000
    ensures k + 3 == EncodedSize(t) && m == EncodedMantissa(t) == Drop(t, k)
    ensures Compact(t) == (k + 3) * 0x100_0000 + m
    ensures CompactToBig(Compact(t)) == Shift(m, k) <= t
  {
    CompactWord(t);
    MantissaIsDrop(t);
    k, m := EncodedSize(t) - 3, EncodedMantissa(t);
    ShiftDrop(m, t, k);
  }

  lemma MantissaIsDrop(t: nat)
    requires t >= 0x100_0000
    ensures EncodedSize(t) >= 4 && EncodedMantissa(t) >= 0x8000
    ensures EncodedMantissa(t) == Drop(t, EncodedSize(t) - 3)
  {
    var size := LeadingBytes(t);
    FourBytes(t);
    var top := Drop(t, size - 3);
    DropTwice(t, size - 3, 1);
    assert Drop(top, 1) == top / 256;
  }

  // ------------------------------------------- what the codec guarantees

  /** x is the largest target a compact word can denote without exceeding t. */
  ghost predicate IsGreatestTarget(x: int, t: int) {
    && x <= t
    && (exists c: uint32 :: CompactToBig(c) == x)
    && (forall c: uint32 :: CompactToBig(c) <= t ==> CompactToBig(c) <= x)
  }

  // A scaled mantissa that does not exceed t does not exceed t rounded down
  // by k bytes either, when what is left of t has its full 16 bits.
  lemma NoneBetween(t: nat, k: nat, m: nat, n: nat, e: nat)
    requires k >= 1 && m == Drop(t, k) && m >= 0x8000
    requires n < 0x80_0000 && Scaled(n, e) <= t
    ensures Scaled(n, e) <= Shift(m, k)
  {
    ShiftMonotone(0x8000, m, k);
    if e <= 3 {
      ScaledSmall(n, e);
      ShiftGrows(0x8000, 1, k);
    } else if e - 3 >= k {
      ShiftTwice(n, e - 3 - k, k);
      ShiftDrop(Shift(n, e - 3 - k), t, k);
      ShiftMonotone(Shift(n, e - 3 - k), m, k);
    } else {
      ShiftMonotone(n, 0x80_0000, e - 3);
      ShiftTwice(0x8000, 1, e - 3);
      ShiftGrows(0x8000, e - 2, k);
    }
  }

  lemma CompactIsGreatest(t: nat)
    requires Encodable(t)
    ensures IsGreatestTarget(CompactToBig(Compact(t)), t)
  {
    if t == 0 {
      assert CompactToBig(0) == 0;
      return;
    }
    var k, m := CompactShape(t);
    forall c: uint32 | CompactToBig(c) <= t
      ensures CompactToBig(c) <= Shift(m, k)
    {
      var n, e := CompactParts(c);
      if CompactToBig(c) > 0 {
        NoneBetween(t, k, m, n, e);
      }
    }
  }

  lemma {:induction false} BigEndianValue(t: nat)
    ensures FromBigEndian(ToBigEndian(t)) == t
  {
    if t > 0 {
      BigEndianValue(t / 256);
      assert ToBigEndian(t)[..|ToBigEndian(t)| - 1] == ToBigEndian(t / 256);
    }
  }

  lemma SmallTargetDecodes(t: nat)
    requires 0 < t < 0x100_0000
    ensures 0 <= CompactToBig(Compact(t)) <= t / 256
  {
    FourBytes(t);
    BigEndianValue(t);
    assert EncodedMantissa(t) == t / 256;
    CompactWord(t);
    ScaledSmall(t / 256, EncodedSize(t));
  }

  lemma SmallTargetLosesAByte(t: nat) returns (c: uint32)
    requires 0 < t < 0x100_0000
    ensures CompactToBig(Compact(t)) < CompactToBig(c) <= t
  {
    SmallTargetDecodes(t);
    if t < 0x80_0000 {
      c := 3 * 0x100_0000 + t;
      CompactFields(3, t);
    } else {
      c := 4 * 0x100_0000 + t / 256;
      CompactFields(4, t / 256);
      assert Shift(t / 256, 1) == 256 * (t / 256);
    }
  }

  lemma LengthByteWraps(t: nat)
    requires EncodedSize(t) == 256 && |ToBigEndian(t)| == 255
    ensures CompactToBig(Compact(t)) == 0
  {
    var m := RawMantissa(ToBigEndian(t));
    assert Compact(t) == m / 256;
    CompactFields(0, m / 256);
    ScaledSmall(m / 256, 0);
    ShiftDrop(1, m / 256, 3);
    assert Shift(1, 3) == 0x100_0000;
  }

  /** The compact word of the largest target there is. */
  const GREATEST_WORD: uint32 := 0xff7f_ffff

  lemma GreatestTarget() returns (m: nat, k: nat)
    ensures m == 0x7f_ffff && k == 252 && CompactToBig(GREATEST_WORD) == Shift(m, k)
  {
    hide Shift;
    m, k := 0x7f_ffff, 252;
    CompactFields(k + 3, m);
  }

  lemma OneShiftMore(n: nat, k: nat)
    ensures Shift(n, k + 1) == 256 * Shift(n, k) && Shift(n, 0) == n
  {
  }

  /** No word denotes a larger target, and no other word as large a one. */
  lemma GreatestWord(c: uint32)
    ensures CompactToBig(c) <= CompactToBig(GREATEST_WORD)
    ensures CompactToBig(c) == CompactToBig(GREATEST_WORD) ==> c == GREATEST_WORD
  {
    hide Shift, CompactToBig;
    var n, k := GreatestTarget();
    var m, e := CompactParts(c);
    OneShiftMore(n, 0);
    ShiftGrows(n, 1, k);
    if e <= 3 {
      ScaledSmall(m, e);
    } else {
      var j := e - 3;
      ShiftMonotone(m, n, j);
      ShiftMonotone(n, m, j);
      if j < k {
        OneShiftMore(n, j);
        ShiftGrows(n, 0, j);
        ShiftGrows(n, j + 1, k);
      }
    }
  }

  lemma LongTargetsExceed(t: nat)
    requires |ToBigEndian(t)| > 255
    ensures CompactToBig(GREATEST_WORD) <= t
  {
    hide Shift, CompactToBig, ToBigEndian;
    var n, k := GreatestTarget();
    EmptyIsZero(t);
    BigEndianMagnitude(t);
    ShiftGrows(1, 3 + k, |ToBigEndian(t)| - 1);
    ShiftTwice(1, 3, k);
    OneShiftMore(1, 0);
    OneShiftMore(1, 1);
    OneShiftMore(1, 2);
    ShiftMonotone(n, Shift(1, 3), k);
  }

  lemma EmptyIsZero(t: nat)
    ensures t == 0 ==> ToBigEndian(t) == []
  {
  }

  /** The targets of more than 255 bytes whose recorded length and mantissa come out as the greatest word's. */
  predicate WrapsToGreatest(t: nat) {
    |ToBigEndian(t)| > 255 && EncodedSize(t) % 256 == 255 && EncodedMantissa(t) == 0x7f_ffff
  }

  lemma WrapsExactly(t: nat)
    requires |ToBigEndian(t)| > 255
    ensures Compact(t) == GREATEST_WORD <==> WrapsToGreatest(t)
  {
    EmptyIsZero(t);
    var n, m := EncodedSize(t) % 256, EncodedMantissa(t);
    hide RawMantissa, ToBigEndian;
    assert Compact(t) == n * 0x100_0000 + m;
  }

  /** BigToCompact rounds a target down to the nearest representable one exactly when the target is encodable, or has
      more than 255 bytes and happens to wrap to the greatest word. */
  lemma CompactRoundsDownExactly(t: nat)
    ensures IsGreatestTarget(CompactToBig(Compact(t)), t) <==> Encodable(t) || WrapsToGreatest(t)
  {
    if |ToBigEndian(t)| > 255 {
      LongTargetRounds(t);
      WrapsExactly(t);
    } else {
      ShortTargetRounds(t);
    }
  }

  lemma LongTargetRounds(t: nat)
    requires |ToBigEndian(t)| > 255
    ensures !Encodable(t)
    ensures IsGreatestTarget(CompactToBig(Compact(t)), t) <==> Compact(t) == GREATEST_WORD
  {
    EmptyIsZero(t);
    LongTargetsExceed(t);
    hide CompactToBig, Compact, RawMantissa;
    forall c: uint32
      ensures CompactToBig(c) <= CompactToBig(GREATEST_WORD)
    {
      GreatestWord(c);
    }
    GreatestWord(Compact(t));
  }

  lemma ShortTargetRounds(t: nat)
    requires |ToBigEndian(t)| <= 255
    ensures IsGreatestTarget(CompactToBig(Compact(t)), t) <==> Encodable(t)
  {
    FourBytes(t);
    if Encodable(t) {
      CompactIsGreatest(t);
    } else if t < 0x100_0000 {
      var c := SmallTargetLosesAByte(t);
    } else {
      LengthByteWraps(t);
      CompactFields(3, 1);
      assert CompactToBig(0x300_0001) == 1;
    }
  }

  /** A harder target never gets an easier compact form. */
  lemma CompactMonotone(t: nat, u: nat)
    requires Encodable(t) && Encodable(u) && t <= u
    ensures CompactToBig(Compact(t)) <= CompactToBig(Compact(u))
  {
    CompactIsGreatest(t);
    CompactIsGreatest(u);
  }

  lemma {:induction false} ShiftIsLinear(k: nat)
    ensures Shift(0x8000, k) == 0x8000 * Shift(1, k)
  {
    if k > 0 {
      ShiftIsLinear(k - 1);
    }
  }

  /** The encoding loses less than one part in 2^15. */
  lemma CompactPrecision(t: nat)
    requires Encodable(t) && t > 0
    ensures 0x8000 * (t - CompactToBig(Compact(t))) < t
  {
    var k, m := CompactShape(t);
    ShiftDrop(m + 1, t, k);
    ShiftAdds(m, 1, k);
    ShiftIsLinear(k);
    ShiftMonotone(0x8000, m, k);
  }

  /** The words BigToCompact produces: a full 16-bit mantissa and a target of four bytes or more. */
  predicate Canonical(c: uint32) {
    c == 0 || (0x8000 <= c % 0x100_0000 < 0x80_0000 && CompactToBig(c) >= 0x100_0000)
  }

  lemma {:induction false} ShiftBytes(m: nat, k: nat)
    requires m > 0
    ensures |ToBigEndian(Shift(m, k))| == |ToBigEndian(m)| + k
    ensures |ToBigEndian(m)| >= 3 ==> Top3(ToBigEndian(Shift(m, k))) == Top3(ToBigEndian(m))
  {
    if k > 0 {
      ShiftBytes(m, k - 1);
    }
  }

  /** No compact word denotes a target too long to encode. */
  lemma WordIsEncodable(c: uint32)
    requires Abs(CompactToBig(c)) >= 0x100_0000
    ensures Encodable(Abs(CompactToBig(c)))
  {
    var m, e := CompactParts(c);
    if e <= 3 {
      ScaledSmall(m, e);
    } else {
      if m == 0 {
        ShiftMonotone(0, 0, e - 3);
        ShiftIsZero(e - 3);
      }
      ShiftBytes(m, e - 3);
      FourBytes(m);
      if |ToBigEndian(m)| == 3 {
        Top3IsDrop(m);
      }
    }
  }

  lemma {:induction false} ShiftIsZero(k: nat)
    ensures Shift(0, k) == 0
  {
    if k > 0 {
      ShiftIsZero(k - 1);
    }
  }

  // Only one scale gives a number a mantissa between 2^15 and 2^23.
  lemma UniqueScale(m: nat, k: nat, m': nat, k': nat)
    requires 0x8000 <= m < 0x80_0000 && 0x8000 <= m' < 0x80_0000
    requires m' == Drop(Shift(m, k), k')
    ensures k == k' && m == m'
  {
    if k' <= k {
      ShiftTwice(m, k - k', k');
      DropOfShift(Shift(m, k - k'), k');
      if k' < k {
        ShiftGrows(m, 1, k - k');
      }
    } else {
      DropTwice(Shift(m, k), k, k' - k);
      DropOfShift(m, k);
      ShiftDrop(m', m, k' - k);
      ShiftGrows(m', 1, k' - k);
    }
  }

  lemma CanonicalRoundTrip(c: uint32)
    requires Canonical(c) && c != 0
    ensures Compact(CompactToBig(c)) == c
  {
    var m, e := CompactParts(c);
    assert !SignBit(c);
    WordIsEncodable(c);
    if e <= 3 {
      ScaledSmall(m, e);
    } else {
      var k, m' := CompactShape(CompactToBig(c));
      UniqueScale(m, e - 3, m', k);
    }
  }

  lemma FieldsMantissa(e: nat, m: nat)
    requires m < 0x100_0000
    ensures (e * 0x100_0000 + m) % 0x100_0000 == m
  {
  }

  /** What an encodable target is encoded as is canonical. */
  lemma CompactIsCanonical(t: nat)
    requires Encodable(t)
    ensures Canonical(Compact(t))
  {
    if t != 0 {
      var k, m := CompactShape(t);
      CompactIsGreatest(t);
      CompactFields(4, 0x1_0000);
      assert Shift(0x1_0000, 1) == 0x100_0000;
      FieldsMantissa(k + 3, m);
    }
  }

  lemma NonCanonicalChanges(c: uint32)
    requires !Canonical(c)
    ensures Compact(CompactToBig(c)) != c
  {
    var t := CompactToBig(c);
    assert Compact(t) == Compact(Abs(t));
    if Abs(t) >= 0x100_0000 {
      WordIsEncodable(c);
      CompactIsCanonical(Abs(t));
    } else if t != 0 {
      SmallTargetDecodes(Abs(t));
    }
  }

  /** Decoding and encoding a compact word gives it back exactly when it is canonical. */
  lemma CompactRoundTrip(c: uint32)
    ensures Compact(CompactToBig(c)) == c <==> Canonical(c)
  {
    if Canonical(c) {
      if c != 0 {
        CanonicalRoundTrip(c);
      }
    } else {
      NonCanonicalChanges(c);
    }
  }
}
