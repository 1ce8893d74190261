/** Bytes, fixed-width words and the positional notation that joins them. */
module Numbers {

  type byte = x: int | 0 <= x < 0x100

  /** The 32 bytes of a double SHA-256, in the order Bitcoin stores them. */
  type Hash = h: seq<byte> | |h| == 32 witness seq(32, _ => 0)

  const TWO_TO_THE_32: int := 0x1_0000_0000

  type uint32 = x: int | 0 <= x < TWO_TO_THE_32

  /** Go's increment of a uint32: it wraps. */
  function Next(h: uint32): uint32 {
    if h == TWO_TO_THE_32 - 1 then 0 else h + 1
  }

  /** Go's decrement of a uint32: it wraps. */
  function Previous(h: uint32): uint32 {
    if h == 0 then TWO_TO_THE_32 - 1 else h - 1
  }

  /** The uint32 reached by counting up to n from zero, at most once around. */
  function Wrap(n: nat): uint32
    requires n <= TWO_TO_THE_32
  {
    if n == TWO_TO_THE_32 then 0 else n
  }

  function Min(a: int, b: int): int {
    if a <= b then a else b
  }

  function Max(a: int, b: int): int {
    if a >= b then a else b
  }

  function Abs(x: int): nat {
    if x < 0 then -x else x
  }

  /** n with k zero bytes appended: a left shift by 8k bits. */
  function Shift(n: nat, k: nat): nat {
    if k == 0 then n else 256 * Shift(n, k - 1)
  }

  /** n without its k lowest bytes: a right shift by 8k bits. */
  function Drop(n: nat, k: nat): nat {
    if k == 0 then n else Drop(n / 256, k - 1)
  }

  lemma {:induction false} ShiftTwice(n: nat, j: nat, k: nat)
    ensures Shift(n, j + k) == Shift(Shift(n, j), k)
  {
    if k > 0 {
      ShiftTwice(n, j, k - 1);
    }
  }

  lemma {:induction false} DropTwice(n: nat, j: nat, k: nat)
    ensures Drop(n, j + k) == Drop(Drop(n, j), k)
  {
    if j > 0 {
      DropTwice(n / 256, j - 1, k);
    }
  }

  lemma {:induction false} ShiftAdds(m: nat, n: nat, k: nat)
    ensures Shift(m + n, k) == Shift(m, k) + Shift(n, k)
  {
    if k > 0 {
      ShiftAdds(m, n, k - 1);
    }
  }

  lemma {:induction false} ShiftMonotone(m: nat, n: nat, k: nat)
    ensures m <= n <==> Shift(m, k) <= Shift(n, k)
  {
    if k > 0 {
      ShiftMonotone(m, n, k - 1);
    }
  }

  lemma {:induction false} ShiftGrows(n: nat, j: nat, k: nat)
    requires j <= k
    ensures Shift(n, j) <= Shift(n, k)
  {
    if j < k {
      ShiftGrows(n, j, k - 1);
    }
  }

  /** The two shifts form a Galois connection. */
  lemma {:induction false} ShiftDrop(q: nat, n: nat, k: nat)
    ensures Shift(q, k) <= n <==> q <= Drop(n, k)
  {
    if k > 0 {
      ShiftDrop(q, n / 256, k - 1);
    }
  }

  lemma {:induction false} DropOfShift(n: nat, k: nat)
    ensures Drop(Shift(n, k), k) == n
  {
    ShiftDrop(n, Shift(n, k), k);
    ShiftDrop(Drop(Shift(n, k), k), Shift(n, k), k);
    ShiftMonotone(Drop(Shift(n, k), k), n, k);
  }

  function Reversed(b: seq<byte>): (r: seq<byte>)
    ensures |r| == |b| && forall i :: 0 <= i < |b| ==> r[i] == b[|b| - 1 - i]
  {
    seq(|b|, i requires 0 <= i < |b| => b[|b| - 1 - i])
  }

  /** The number a big-endian byte string denotes (big.Int's SetBytes). */
  function FromBigEndian(b: seq<byte>): nat {
    if b == [] then 0 else 256 * FromBigEndian(b[..|b| - 1]) + b[|b| - 1]
  }

  /** The shortest big-endian byte string of a number (big.Int's Bytes). */
  function ToBigEndian(n: nat): seq<byte> {
    if n == 0 then [] else ToBigEndian(n / 256) + [n % 256]
  }

  /** The number a little-endian byte string denotes. */
  function FromLittleEndian(b: seq<byte>): nat {
    if b == [] then 0 else b[0] + 256 * FromLittleEndian(b[1..])
  }

  /** The width-byte little-endian form of a number that fits in it. */
  function ToLittleEndian(n: nat, width: nat): (b: seq<byte>)
    ensures |b| == width
  {
    if width == 0 then [] else [n % 256] + ToLittleEndian(n / 256, width - 1)
  }

  lemma {:induction false} LittleEndianRoundTrip(n: nat, width: nat)
    requires n < Shift(1, width)
    ensures FromLittleEndian(ToLittleEndian(n, width)) == n
  {
    if width > 0 {
      LittleEndianRoundTrip(n / 256, width - 1);
      var b := ToLittleEndian(n, width);
      assert b[1..] == ToLittleEndian(n / 256, width - 1);
    }
  }

  lemma {:induction false} LittleEndianBytes(b: seq<byte>)
    ensures ToLittleEndian(FromLittleEndian(b), |b|) == b
  {
    if b != [] {
      LittleEndianBytes(b[1..]);
      assert b == [b[0]] + b[1..];
    }
  }

  lemma {:induction false} LittleEndianBound(b: seq<byte>)
    ensures FromLittleEndian(b) < Shift(1, |b|)
  {
    if b != [] {
      LittleEndianBound(b[1..]);
    }
  }

  /** Two byte strings of one length that denote one number are the same. */
  lemma {:induction false} LittleEndianInjective(a: seq<byte>, b: seq<byte>)
    requires |a| == |b|
    requires FromLittleEndian(a) == FromLittleEndian(b)
    ensures a == b
  {
    if |a| > 0 {
      LittleEndianInjective(a[1..], b[1..]);
      assert a == [a[0]] + a[1..] && b == [b[0]] + b[1..];
    }
  }

  /** The length of the shortest form is the number's magnitude. */
  lemma {:induction false} BigEndianMagnitude(n: nat)
    requires n > 0
    ensures |ToBigEndian(n)| > 0
    ensures Shift(1, |ToBigEndian(n)| - 1) <= n < Shift(1, |ToBigEndian(n)|)
  {
    if n >= 256 {
      BigEndianMagnitude(n / 256);
    } else {
      assert ToBigEndian(n / 256) == [];
    }
  }
}
